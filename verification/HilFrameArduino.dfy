/** HilFrameArduino<MAX_PAYLOAD>: the fixed-buffer encoder and streaming decoder of the tool. */
module ArduinoFrame {
  import opened Bytes
  import opened Fletcher
  import opened HilCodec
  import opened Integers
  import opened Receivers

  class HilFrameArduino {
    const maxPayload: nat
    const data: array<byte>
    const tx: array<byte>
    var dataSize: nat
    var txSize: nat
    var readIndex: nat

    /** MAX_ENCODED: every byte of payload and checksum escaped, between two delimiters. */
    function MaxEncoded(): nat {
      1 + 2 * (maxPayload + 2) + 1
    }

    ghost predicate Valid()
      reads this
    {
      && data != tx && data.Length == maxPayload && tx.Length == MaxEncoded()
      && readIndex <= dataSize <= data.Length && txSize <= tx.Length
    }

    ghost function Payload(): seq<byte>
      requires Valid()
      reads this, data
    {
      data[..dataSize]
    }

    ghost function Tx(): seq<byte>
      requires Valid()
      reads this, tx
    {
      tx[..txSize]
    }

    constructor (max: nat)
      ensures Valid() && fresh(data) && fresh(tx) && maxPayload == max
      ensures Payload() == [] && Tx() == [] && readIndex == 0
    {
      maxPayload := max;
      data := new byte[max];
      tx := new byte[1 + 2 * (max + 2) + 1];
      dataSize, txSize, readIndex := 0, 0, 0;
    }

    method Clear()
      requires Valid()
      modifies this
      ensures Valid() && Payload() == [] && Tx() == [] && readIndex == 0
    {
      dataSize, txSize, readIndex := 0, 0, 0;
    }

    // ---- Typed fields -----------------------------------------------------------

    method SetData(input: seq<byte>) returns (ok: bool)
      requires Valid()
      modifies this, data
      ensures Valid() && ok == (|input| <= maxPayload) && Tx() == old(Tx())
      ensures ok ==> Payload() == input && readIndex == 0
      ensures !ok ==> Payload() == old(Payload()) && readIndex == old(readIndex)
    {
      if |input| > maxPayload {
        return false;
      }
      forall i | 0 <= i < |input| {
        data[i] := input[i];
      }
      dataSize := |input|;
      readIndex := 0;
      return true;
    }

    /** addBytes, addByte and addFloat, whose value is its bytes: appends all of them, or nothing. */
    method AddBytes(input: seq<byte>) returns (ok: bool)
      requires Valid()
      modifies this, data
      ensures Valid() && ok == (|old(Payload())| + |input| <= maxPayload)
      ensures Payload() == if ok then old(Payload()) + input else old(Payload())
      ensures readIndex == old(readIndex) && Tx() == old(Tx())
    {
      if dataSize + |input| > maxPayload {
        return false;
      }
      forall i | 0 <= i < |input| {
        data[dataSize + i] := input[i];
      }
      dataSize := dataSize + |input|;
      return true;
    }

    method AddUInt16(value: u16) returns (ok: bool)
      requires Valid()
      modifies this, data
      ensures Valid() && ok == (|old(Payload())| + 2 <= maxPayload)
      ensures Payload() == if ok then old(Payload()) + LittleEndian(2, value) else old(Payload())
      ensures readIndex == old(readIndex) && Tx() == old(Tx())
    {
      ok := AddBytes([value % 256, value / 256]);
      TwoBytes(value);
    }

    method AddInt32(value: int32) returns (ok: bool)
      requires Valid()
      modifies this, data
      ensures Valid() && ok == (|old(Payload())| + 4 <= maxPayload)
      ensures Payload() == if ok then old(Payload()) + LittleEndian(4, Unsigned(value)) else old(Payload())
      ensures readIndex == old(readIndex) && Tx() == old(Tx())
    {
      var u := Unsigned(value);
      ok := AddBytes([u % 256, u / 0x100 % 256, u / 0x1_0000 % 256, u / 0x100_0000]);
      FourBytes(u);
    }

    /** getByte and getFloat take the next n bytes, or nothing. */
    method GetBytes(n: nat) returns (taken: Option<seq<byte>>)
      requires Valid()
      modifies this`readIndex
      ensures Valid() && Payload() == old(Payload())
      ensures taken == if old(readIndex) + n <= |Payload()|
                       then Some(Payload()[old(readIndex)..old(readIndex) + n]) else None
      ensures readIndex == if taken.Some? then old(readIndex) + n else old(readIndex)
    {
      if readIndex + n > dataSize {
        return None;
      }
      taken := Some(data[readIndex..readIndex + n]);
      assert data[..dataSize][readIndex..readIndex + n] == data[readIndex..readIndex + n];
      readIndex := readIndex + n;
    }

    method GetUInt16() returns (value: Option<nat>)
      requires Valid()
      modifies this`readIndex
      ensures Valid() && Payload() == old(Payload())
      ensures value == if old(readIndex) + 2 <= |Payload()|
                       then Some(FromLittleEndian(Payload()[old(readIndex)..old(readIndex) + 2])) else None
      ensures readIndex == if value.Some? then old(readIndex) + 2 else old(readIndex)
    {
      var taken := GetBytes(2);
      if taken.None? {
        return None;
      }
      var b := taken.value;
      FromTwoBytes(b);
      return Some(Word(b[0], b[1]));
    }

    method GetInt32() returns (value: Option<int32>)
      requires Valid()
      modifies this`readIndex
      ensures Valid() && Payload() == old(Payload())
      ensures value == if old(readIndex) + 4 <= |Payload()|
                       then Some(Signed(FromLittleEndian(Payload()[old(readIndex)..old(readIndex) + 4]))) else None
      ensures readIndex == if value.Some? then old(readIndex) + 4 else old(readIndex)
    {
      var taken := GetBytes(4);
      if taken.None? {
        return None;
      }
      var b := taken.value;
      FromFourBytes(b);
      return Some(Signed(Word32(b[0], b[1], b[2], b[3])));
    }

    // ---- Encoding -----------------------------------------------------------------

    method AppendTxRaw(b: byte) returns (ok: bool)
      requires Valid()
      modifies this`txSize, tx
      ensures Valid() && ok == (|old(Tx())| < MaxEncoded())
      ensures Tx() == if ok then old(Tx()) + [b] else old(Tx())
    {
      if txSize >= tx.Length {
        return false;
      }
      tx[txSize] := b;
      txSize := txSize + 1;
      return true;
    }

    method AppendEscaped(b: byte) returns (ok: bool)
      requires Valid()
      modifies this`txSize, tx
      ensures Valid()
      ensures ok == (|old(Tx())| + |StuffByte(DEFAULT_MARKS, b)| <= MaxEncoded())
      ensures ok ==> Tx() == old(Tx()) + StuffByte(DEFAULT_MARKS, b)
      ensures !ok ==> Tx() == (old(Tx()) + StuffByte(DEFAULT_MARKS, b))[..MaxEncoded()]
    {
      if b == DELIMITER || b == ESCAPE {
        ok := AppendTxRaw(ESCAPE);
        if ok {
          ok := AppendTxRaw(Flip(b));
        }
      } else {
        ok := AppendTxRaw(b);
      }
    }

    /** The last part of build: the checksum, low byte first, and the END. */
    method AppendTrailer() returns (ok: bool)
      requires Valid() && dataSize > 0
      requires Tx() == Begun(Payload() + Trailer(Payload()), dataSize)
      modifies this`txSize, tx
      ensures Valid() && ok && Payload() == old(Payload()) && Tx() == Encode(Payload())
    {
      hide Begun, StuffByte, Encode, Trailer;
      var cksum := Checksum(data[..dataSize]);
      TrailerCompletes(Payload());
      ok := AppendEscaped(cksum % 256);
      if !ok {
        return false;
      }
      ok := AppendEscaped(cksum / 256);
      if !ok {
        return false;
      }
      ok := AppendTxRaw(DELIMITER);
    }

    /** Encodes the payload; the buffer is always large enough, so only an empty payload fails. */
    method Build() returns (ok: bool)
      requires Valid()
      modifies this`txSize, tx
      ensures Valid() && Payload() == old(Payload())
      ensures ok == (Payload() != [])
      ensures Tx() == if ok then Encode(Payload()) else []
    {
      txSize := 0;
      if dataSize == 0 {
        return false;
      }
      ok := AppendTxRaw(DELIMITER);
      var i := 0;
      ghost var p := Payload();
      ghost var x := p + Trailer(p);
      while i < dataSize
        invariant Valid() && i <= dataSize && Payload() == p
        invariant Tx() == Begun(x, i)
      {
        BegunNext(x, i);
        assert data[i] == p[i] == x[i];
        ok := AppendEscaped(data[i]);
        if !ok {
          return false;
        }
        i := i + 1;
      }
      ok := AppendTrailer();
    }

    // ---- Decoding -----------------------------------------------------------------

    /** What readFrom does at an END byte: keep the payload if the trailer matches. */
    method CloseFrame(decoded: array<byte>, decodedSize: nat) returns (ok: bool)
      requires Valid() && decoded != data && decoded != tx
      requires decodedSize <= decoded.Length == maxPayload + 2
      modifies this`dataSize, this`readIndex, data
      ensures Valid() && Tx() == old(Tx())
      ensures match Verify(decoded[..decodedSize])
              case Some(p) => ok && Payload() == p && readIndex == 0
              case None => !ok && Payload() == old(Payload()) && readIndex == old(readIndex)
    {
      if decodedSize < 2 {
        return false;
      }
      ghost var d := decoded[..decodedSize];
      var payloadSize := decodedSize - 2;
      var received := Word(decoded[payloadSize], decoded[payloadSize + 1]);
      var computed := Checksum(decoded[..payloadSize]);
      assert decoded[..payloadSize] == d[..payloadSize];
      if received != computed {
        return false;
      }
      forall i | 0 <= i < payloadSize {
        data[i] := decoded[i];
      }
      dataSize := payloadSize;
      readIndex := 0;
      assert decoded[..decodedSize] == d && data[..payloadSize] == d[..payloadSize];
      return true;
    }

    /** One call of readFrom. The clock is abstracted to `arrivals`: how many bytes the port
        hands over before the deadline. */
    method ReadFrom(stream: ByteStream, arrivals: nat) returns (ok: bool)
      requires Valid()
      modifies this, data, stream
      ensures Valid() && Tx() == [] && readIndex == 0
      ensures var window := Window(old(stream.pending), arrivals);
              match Receive(Decoder(maxPayload), Hunting, window)
              case Got(p, n) => ok && Payload() == p && stream.pending == old(stream.pending)[n..]
              case Waiting(_) => !ok && Payload() == [] && stream.pending == old(stream.pending)[|window|..]
    {
      hide Step, Verify, Reached;
      Clear();
      var decoded := new byte[maxPayload + 2];
      var decodedSize := 0;
      var inFrame, escapeNext := false, false;
      ghost var s, k := stream.pending, Decoder(maxPayload);
      ghost var st := Hunting;
      var taken := 0;
      AtStart(k, s, arrivals);
      while taken < arrivals && stream.pending != []
        invariant Valid() && Payload() == [] && Tx() == [] && readIndex == 0
        invariant decodedSize <= decoded.Length == maxPayload + 2
        invariant !inFrame ==> !escapeNext
        invariant st == if inFrame then InFrame(escapeNext, decoded[..decodedSize]) else Hunting
        invariant Reached(k, s, arrivals, taken, st, stream.pending)
        decreases arrivals - taken
      {
        ghost var sofar := decoded[..decodedSize];
        Advance(k, s, arrivals, taken, st, stream.pending);
        DecoderBranches(maxPayload, escapeNext, sofar, stream.pending[0]);
        st := Step(k, st, stream.pending[0]).0;
        var b := stream.Read();
        taken := taken + 1;

        if !inFrame {
          if b == DELIMITER {
            inFrame, escapeNext, decodedSize := true, false, 0;
          }
          continue;
        }
        if escapeNext {
          if decodedSize >= maxPayload + 2 {
            inFrame, escapeNext, decodedSize := false, false, 0;
            continue;
          }
          decoded[decodedSize] := Flip(b);
          decodedSize := decodedSize + 1;
          assert decoded[..decodedSize] == sofar + [Flip(b)];
          escapeNext := false;
          continue;
        }
        if b == ESCAPE {
          escapeNext := true;
          continue;
        }
        if b == DELIMITER {
          ok := CloseFrame(decoded, decodedSize);
          if ok {
            return true;
          }
          inFrame, escapeNext, decodedSize := true, false, 0;
          continue;
        }
        if decodedSize >= maxPayload + 2 {
          inFrame, escapeNext, decodedSize := false, false, 0;
          continue;
        }
        decoded[decodedSize] := b;
        decodedSize := decodedSize + 1;
        assert decoded[..decodedSize] == sofar + [b];
      }
      AtDeadline(k, s, arrivals, taken, st, stream.pending);
      Clear();
      return false;
    }
  }

  /** The branches of readFrom's loop body and the steps of the decoder they take. */
  lemma DecoderBranches(max: nat, escaped: bool, acc: seq<byte>, b: byte)
    ensures Step(Decoder(max), Hunting, b) == (if b == DELIMITER then OPENED else Hunting, None)
    ensures var full := |acc| >= max + 2;
            Step(Decoder(max), InFrame(escaped, acc), b)
            == if escaped then (if full then Hunting else InFrame(false, acc + [Flip(b)]), None)
               else if b == ESCAPE then (InFrame(true, acc), None)
               else if b == DELIMITER then if Verify(acc).Some? then (Hunting, Verify(acc)) else (OPENED, None)
               else (if full then Hunting else InFrame(false, acc + [b]), None)
  {
  }
}
