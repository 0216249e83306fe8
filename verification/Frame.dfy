/** The Frame class of the Raspberry tools: configurable marks, vectors, and a lenient unescape. */
module FrameClass {
  import opened Bytes
  import opened Fletcher
  import opened HilCodec

  /** unescapedCopy: a dangling escape is kept as a data byte. */
  function Lenient(escape: byte, s: seq<byte>): seq<byte> {
    var u := Unstuff(escape, s);
    if u.dangling then u.bytes + [escape] else u.bytes
  }

  method EscapedCopy(m: Marks, input: seq<byte>) returns (out: seq<byte>)
    ensures out == Stuff(m, input)
  {
    out := [];
    for i := 0 to |input|
      invariant out == Stuff(m, input[..i])
    {
      StuffNext(m, input, i);
      if m.Special(input[i]) {
        out := out + [m.escape] + [Flip(input[i])];
      } else {
        out := out + [input[i]];
      }
    }
    assert input[..|input|] == input;
  }

  method UnescapedCopy(escape: byte, input: seq<byte>) returns (out: seq<byte>)
    ensures out == Lenient(escape, input)
  {
    out := [];
    var i := 0;
    while i < |input|
      invariant i <= |input|
      invariant Lenient(escape, input) == out + Lenient(escape, input[i..])
    {
      LenientStep(escape, input, i);
      if input[i] == escape {
        if i + 1 >= |input| {
          out := out + [escape];
          return;
        }
        i := i + 1;
        AppendAssociates(out, [Flip(input[i])], Lenient(escape, input[i + 1..]));
        out := out + [Flip(input[i])];
      } else {
        AppendAssociates(out, [input[i]], Lenient(escape, input[i + 1..]));
        out := out + [input[i]];
      }
      i := i + 1;
    }
    assert input[i..] == [];
  }

  lemma LenientStep(escape: byte, s: seq<byte>, i: nat)
    requires i < |s|
    ensures Lenient(escape, s[i..]) ==
            if s[i] != escape then [s[i]] + Lenient(escape, s[i + 1..])
            else if i + 1 == |s| then [escape]
            else [Flip(s[i + 1])] + Lenient(escape, s[i + 2..])
  {
    var t := s[i..];
    assert t[1..] == s[i + 1..];
    if i + 1 < |s| {
      assert t[2..] == s[i + 2..];
    }
  }

  /** The bytes unbuild looks at, if the buffer has the shape of a frame. */
  function Inside(m: Marks, buffer: seq<byte>): Option<seq<byte>> {
    if |buffer| < 4 || buffer[0] != m.header || buffer[|buffer| - 1] != m.end then None else
    var decoded := Lenient(m.escape, buffer[1..|buffer| - 1]);
    if |decoded| < 2 then None else Some(decoded)
  }

  /** The payload unbuild accepts. */
  function Decode(m: Marks, buffer: seq<byte>): Option<seq<byte>> {
    match Inside(m, buffer)
    case Some(decoded) => Verify(decoded)
    case None => None
  }

  class Frame {
    var marks: Marks
    var data: seq<byte>
    var buffer: seq<byte>
    var cksum: u16
    var current: int
    var status: bool
    var complete: bool

    constructor ()
      ensures marks == DEFAULT_MARKS && data == [] && buffer == []
      ensures cksum == 0 && current == 0 && !status && !complete
    {
      marks, data, buffer := DEFAULT_MARKS, [], [];
      cksum, current, status, complete := 0, 0, false, false;
    }

    method Clear()
      modifies this
      ensures marks == old(marks) && data == [] && buffer == []
      ensures cksum == 0 && current == 0 && !status && !complete
    {
      data, buffer := [], [];
      cksum, current, status, complete := 0, 0, false, false;
    }

    method AddHeader()
      modifies this`buffer
      ensures buffer == old(buffer) + [marks.header]
    {
      buffer := buffer + [marks.header];
    }

    method AddByte(b: byte)
      modifies this`buffer
      ensures buffer == old(buffer) + [b]
    {
      buffer := buffer + [b];
    }

    method AddEnd()
      modifies this`buffer, this`complete
      ensures buffer == old(buffer) + [marks.end] && complete
    {
      buffer := buffer + [marks.end];
      complete := true;
    }

    /** Encodes the payload; an empty payload leaves an empty, incomplete buffer. */
    method Build()
      modifies this
      ensures marks == old(marks) && data == old(data) && current == 0
      ensures buffer == if data == [] then [] else EncodeWith(marks, data)
      ensures cksum == if data == [] then old(cksum) else Fletcher16(data)
      ensures status == complete == (data != [])
    {
      buffer := [];
      complete, status, current := false, false, 0;
      if data == [] {
        return;
      }
      cksum := Checksum(data);
      var withChecksum := data + [cksum % 256, cksum / 256];
      var escaped := EscapedCopy(marks, withChecksum);
      buffer := [marks.header] + escaped + [marks.end];
      complete, status := true, true;
    }

    method Check() returns (ok: bool)
      modifies this`status
      ensures ok == status == (cksum == Fletcher16(data))
    {
      var computed := Checksum(data);
      status := cksum == computed;
      return status;
    }

    /** Decodes the buffer. A buffer without the shape of a frame leaves payload and checksum
        alone; a mismatching one still replaces them. */
    method Unbuild() returns (ok: bool)
      modifies this
      ensures marks == old(marks) && buffer == old(buffer) && current == 0
      ensures ok == status == Decode(marks, buffer).Some?
      ensures ok ==> data == Decode(marks, buffer).value
      ensures match Inside(marks, buffer)
              case Some(d) => data == d[..|d| - 2] && cksum == Word(d[|d| - 2], d[|d| - 1]) && complete
              case None => data == old(data) && cksum == old(cksum) && complete == old(complete)
    {
      status := false;
      current := 0;
      if |buffer| < 4 {
        return false;
      }
      if buffer[0] != marks.header || buffer[|buffer| - 1] != marks.end {
        return false;
      }
      var decoded := UnescapedCopy(marks.escape, buffer[1..|buffer| - 1]);
      if |decoded| < 2 {
        return false;
      }
      var offset := |decoded| - 2;
      cksum := Word(decoded[offset], decoded[offset + 1]);
      data := decoded[..offset];
      complete := true;
      ok := Check();
    }
  }

  /** unbuild restores what build encoded, for every payload and every setting of the marks. */
  lemma BuildThenUnbuild(m: Marks, p: seq<byte>)
    ensures Decode(m, EncodeWith(m, p)) == Some(p)
  {
    var e := EncodeWith(m, p);
    assert e[1..|e| - 1] == Body(m, p);
    UnstuffUndoesStuff(m, p + Trailer(p));
    VerifyTrailer(p);
  }
}
