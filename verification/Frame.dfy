// The heap-allocated frame of src/types.h and its resumable header parser.

module Frames {
  import opened Bytes
  import opened Wire
  import opened Machine
  import Growth

  const FRAME_CHUNK_LENGTH: nat := 1024

  /** enum WS_FRAME_STATE. */
  datatype FrameState = Start | GotTwo | GotShortLen | GotFullLen | LoadedMask

  class Frame {
    var fin: nat
    var opcode: byte
    var maskOffset: nat
    var payloadOffset: nat
    var rawdataIdx: nat
    var rawdataSz: nat
    var size: nat
    var payloadLenShort: nat
    var payloadLen: nat
    var rawdata: array<byte>
    var next: Frame?
    var prev: Frame?
    var mask: seq<byte>
    var state: FrameState

    /** A calloc'ed frame with a buffer of FRAME_CHUNK_LENGTH bytes. */
    constructor (prev: Frame?, payloadLen: nat)
      ensures Holds([]) && state == Start && rawdata.Length == FRAME_CHUNK_LENGTH
      ensures fresh(rawdata) && this.prev == prev && next == null
    {
      this.fin, this.opcode, this.maskOffset, this.payloadOffset := 0, 0, 0, 0;
      this.rawdataIdx, this.size, this.payloadLenShort, this.payloadLen := 0, 0, 0, payloadLen;
      this.rawdata, this.rawdataSz := new byte[FRAME_CHUNK_LENGTH], FRAME_CHUNK_LENGTH;
      this.next, this.prev, this.mask, this.state := null, prev, [0, 0, 0, 0], Start;
    }

    /** The bytes received so far. */
    ghost function Raw(): seq<byte>
      requires rawdataIdx <= rawdata.Length
      reads this, rawdata
    {
      rawdata[..rawdataIdx]
    }

    /** Every field read so far agrees with a one-shot parse of the bytes received; size never passes the capacity. */
    ghost predicate Parsed()
      reads this, rawdata
    {
      && rawdataIdx <= rawdata.Length == rawdataSz
      && rawdata.Length >= FRAME_CHUNK_LENGTH
      && var raw := rawdata[..rawdataIdx];
      && (state != Start ==> |raw| >= 2)
      && (state in {GotShortLen, GotFullLen, LoadedMask} ==>
            && fin == (if Fin(raw[0]) then 1 else 0)
            && opcode == Opcode(raw[0])
            && payloadLenShort == ShortLen(raw))
      && (state == GotShortLen ==> maskOffset == 2)
      && (state in {GotFullLen, LoadedMask} ==>
            && |raw| >= MaskOffset(raw)
            && maskOffset == MaskOffset(raw)
            && payloadOffset == PayloadOffset(raw)
            && payloadLen == PayloadLen(raw))
      && (state == LoadedMask ==>
            && HeaderComplete(raw)
            && mask == Key(raw)
            && size == FrameSize(raw) <= rawdata.Length)
    }

    /** Store one byte: `*(rawdata + rawdata_idx++) = b`. */
    method Store(b: byte)
      requires Parsed() && rawdataIdx < rawdata.Length
      modifies this`rawdataIdx, rawdata
      ensures Parsed() && Raw() == old(Raw()) + [b]
    {
      ghost var before := Raw();
      Wire.Extend(before, [b]);
      rawdata[rawdataIdx] := b;
      rawdataIdx := rawdataIdx + 1;
      assert Raw() == before + [b];
      assert before != [] ==> (before + [b])[0] == before[0];
      assert |before| >= 2 ==> (before + [b])[1] == before[1];
    }

    /** libwebsock_read_header: 1 exactly when the whole header is present, with every field read once. */
    method ReadHeader() returns (r: int)
      requires Parsed() && SizeOk(Raw())
      modifies this
      ensures Parsed() && Raw() == old(Raw())
      ensures r == if HeaderComplete(Raw()) then 1 else 0
      ensures r == 1 <==> state == LoadedMask
      ensures next == old(next) && prev == old(prev)
      ensures rawdata == old(rawdata) || fresh(rawdata)
    {
      hide FromBe16, FromBe32;
      if state == Start {
        if rawdataIdx < 2 { return 0; }
        state := GotTwo;
      }
      if state == GotTwo {
        ReadTwo();
      }
      if state == GotShortLen {
        var got := ReadLength();
        if !got { return 0; }
      }
      if state == GotFullLen {
        if rawdataIdx < payloadOffset { return 0; }
        LoadMask();
      }
      return 1;
    }

    // case sw_got_two
    method ReadTwo()
      requires Parsed() && state == GotTwo
      modifies this`maskOffset, this`fin, this`opcode, this`payloadLenShort, this`state
      ensures Parsed() && state == GotShortLen && Raw() == old(Raw())
    {
      hide Low7, Fin, Opcode;
      maskOffset := 2;
      fin := if Fin(rawdata[0]) then 1 else 0;
      opcode := Opcode(rawdata[0]);
      payloadLenShort := Low7(rawdata[1]);
      state := GotShortLen;
    }

    // case sw_got_short_len: the offset of an extended length is added only once its bytes are there
    method ReadLength() returns (got: bool)
      requires Parsed() && state == GotShortLen
      modifies this`maskOffset, this`payloadOffset, this`payloadLen, this`state
      ensures Parsed() && Raw() == old(Raw())
      ensures got <==> |Raw()| >= MaskOffset(Raw())
      ensures state == if got then GotFullLen else GotShortLen
    {
      hide FromBe16, FromBe32;
      if payloadLenShort == 126 {
        if rawdataIdx < 4 { return false; }
        maskOffset := maskOffset + 2;
        payloadOffset := maskOffset + 4;
        payloadLen := FromBe16(rawdata[2], rawdata[3]);
      } else if payloadLenShort == 127 {
        if rawdataIdx < 10 { return false; }
        maskOffset := maskOffset + 8;
        payloadOffset := maskOffset + 4;
        payloadLen := FromBe32(rawdata[6], rawdata[7], rawdata[8], rawdata[9]);
      } else {
        payloadLen := payloadLenShort;
        payloadOffset := maskOffset + 4;
      }
      state := GotFullLen;
      return true;
    }

    // case sw_got_full_len
    method LoadMask()
      requires Parsed() && state == GotFullLen && rawdataIdx >= payloadOffset && SizeOk(Raw())
      modifies this`mask, this`size, this`rawdata, this`rawdataSz, this`state
      ensures Parsed() && state == LoadedMask && Raw() == old(Raw())
      ensures rawdata == old(rawdata) || fresh(rawdata)
    {
      hide FromBe16, FromBe32, Growth.RoundUp;
      ghost var raw := Raw();
      mask := rawdata[maskOffset..maskOffset + 4];
      assert mask == Key(raw);
      size := payloadOffset + payloadLen;
      if size > rawdataSz {
        Grow();
      }
      assert Raw() == raw;
      state := LoadedMask;
    }

    /** Round the size up to a power of two and reallocate. */
    method Grow()
      requires rawdataIdx <= rawdata.Length < size <= MAX_FRAME && rawdata.Length >= FRAME_CHUNK_LENGTH
      modifies this`rawdata, this`rawdataSz
      ensures fresh(rawdata) && size <= rawdata.Length == rawdataSz < 2 * size
      ensures rawdata.Length == Growth.RoundUp(size) <= MAX_FRAME
      ensures rawdata[..rawdataIdx] == old(rawdata[..rawdataIdx])
    {
      hide Growth.Or, Growth.Shr;
      var newSize := size;
      newSize := newSize - 1;
      newSize := Growth.Smear(newSize, 1);
      newSize := Growth.Smear(newSize, 2);
      newSize := Growth.Smear(newSize, 4);
      newSize := Growth.Smear(newSize, 8);
      newSize := Growth.Smear(newSize, 16);
      newSize := newSize + 1;
      Growth.RoundUpFits(size);
      var grown := new byte[newSize];
      forall i | 0 <= i < rawdata.Length {
        grown[i] := rawdata[i];
      }
      rawdata, rawdataSz := grown, newSize;
    }

    /** Between turns of the receive loop: the mask is loaded as soon as it is there, and no byte is stored
        past the end of the frame. */
    ghost predicate Settled()
      requires rawdataIdx <= rawdata.Length
      reads this, rawdata
    {
      && (state == LoadedMask <==> HeaderComplete(Raw()))
      && (HeaderComplete(Raw()) ==> |Raw()| <= FrameSize(Raw()))
    }

    /** A well-formed frame that has received exactly `raw`. */
    ghost predicate Holds(raw: seq<byte>)
      reads this, rawdata
    {
      Parsed() && Settled() && Raw() == raw
    }

    /** What the fields of a finished frame say. */
    lemma Finished(raw: seq<byte>)
      requires Holds(raw) && Complete(raw)
      ensures state == LoadedMask && payloadLen == PayloadLen(raw) && opcode == Opcode(raw[0])
      ensures rawdataIdx == |raw| == FrameSize(raw) <= rawdata.Length && rawdata[0] == raw[0]
    {
      assert Raw()[0] == rawdata[0];
    }

    /** One byte of the receive loop: it is stored, and the header is read as far as it goes. */
    method Take(b: byte, ghost raw: seq<byte>) returns (ready: bool)
      requires Holds(raw) && !Complete(raw) && SizeOk(raw + [b])
      modifies this, rawdata
      ensures Holds(raw + [b])
      ensures ready <==> HeaderComplete(raw + [b])
      ensures ready <==> state == LoadedMask
      ensures next == old(next) && prev == old(prev)
      ensures rawdata == old(rawdata) || fresh(rawdata)
    {
      hide FromBe16, FromBe32, Low7, Fin, Opcode;
      Wire.Extend(raw, [b]);
      assert rawdataIdx < rawdata.Length;
      Store(b);
      if state != LoadedMask {
        var err := ReadHeader();
        return err == 1;
      }
      return true;
    }

    method SetNext(next: Frame, ghost raw: seq<byte>)
      requires Holds(raw)
      modifies this`next
      ensures Holds(raw) && this.next == next
    {
      this.next := next;
    }

    /** Ready for the next frame in the same buffer. */
    method Reset()
      requires Parsed()
      modifies this`state, this`rawdataIdx
      ensures Holds([]) && state == Start
    {
      state := Start;
      rawdataIdx := 0;
    }

    /** The bulk memcpy of the receive loop. */
    method Extend(data: seq<byte>, ghost raw: seq<byte>)
      requires Holds(raw) && state == LoadedMask && rawdataIdx + |data| <= size
      modifies this`rawdataIdx, rawdata
      ensures Holds(raw + data) && state == LoadedMask
    {
      hide FromBe16, FromBe32, Low7, Fin, Opcode;
      Wire.Extend(raw, data);
      forall i | 0 <= i < |data| {
        rawdata[rawdataIdx + i] := data[i];
      }
      rawdataIdx := rawdataIdx + |data|;
      assert Raw() == raw + data;
    }

    /** The forward pass of the dispatcher over one frame: the unmasked payload is written at `pos`. */
    method UnmaskInto(target: array<byte>, pos: nat, ghost raw: seq<byte>)
      requires Holds(raw) && Complete(raw) && target != rawdata
      requires pos + PayloadLen(raw) <= target.Length
      modifies target
      ensures target[..pos + PayloadLen(raw)] == old(target[..pos]) + Payload(raw)
    {
      hide FromBe16, FromBe32, Low7, Fin, Opcode;
      ghost var clear := Payload(Raw());
      var i := 0;
      while i < payloadLen
        invariant 0 <= i <= payloadLen
        invariant target[..pos + i] == old(target[..pos]) + clear[..i]
      {
        assert clear[i] == rawdata[payloadOffset + i] ^ mask[i % 4];
        target[pos + i] := rawdata[payloadOffset + i] ^ mask[i % 4];
        i := i + 1;
      }
    }

    // The demasking loop of the control callback: only the payload bytes change.
    method UnmaskLoop(ghost clear: seq<byte>)
      requires payloadOffset + payloadLen <= rawdata.Length && |mask| == 4
      requires clear == Unmask(mask, rawdata[payloadOffset..payloadOffset + payloadLen])
      modifies rawdata
      ensures forall k | 0 <= k < rawdata.Length && !(payloadOffset <= k < payloadOffset + payloadLen) ::
                rawdata[k] == old(rawdata[k])
      ensures rawdata[payloadOffset..payloadOffset + payloadLen] == clear
    {
      var i := 0;
      while i < payloadLen
        invariant 0 <= i <= payloadLen
        invariant forall k | 0 <= k < payloadOffset || payloadOffset + i <= k < rawdata.Length :: rawdata[k] == old(rawdata[k])
        invariant forall k | 0 <= k < i :: rawdata[payloadOffset + k] == clear[k]
      {
        assert clear[i] == rawdata[payloadOffset + i] ^ mask[i % 4];
        rawdata[payloadOffset + i] := rawdata[payloadOffset + i] ^ mask[i % 4];
        i := i + 1;
      }
    }

    /** The control callback's demasking, in place: the header and so every parsed field stay as they are. */
    method UnmaskInPlace(ghost raw: seq<byte>) returns (ghost clearRaw: seq<byte>)
      requires Holds(raw) && Complete(raw)
      modifies rawdata
      ensures Holds(clearRaw) && payloadLen == |Payload(raw)|
      ensures payloadOffset + payloadLen <= rawdata.Length
      ensures rawdata[payloadOffset..payloadOffset + payloadLen] == Payload(raw)
    {
      hide FromBe16, FromBe32, Low7, Fin, Opcode, ShortLen;
      assert raw[payloadOffset..payloadOffset + payloadLen] == rawdata[payloadOffset..payloadOffset + payloadLen];
      UnmaskLoop(Payload(raw));
      clearRaw := rawdata[..rawdataIdx];
      assert raw[..payloadOffset] == clearRaw[..payloadOffset];
      SameHeader(raw, clearRaw);
    }
  }
}
