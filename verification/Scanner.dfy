/** `MessageStreamScanner` of packages/core/src/stream.ts. */
module Scanner {
  import opened Results
  import opened Primitives
  import opened Messages
  import opened Envelope

  /** What one `push` does: it asks for more, returns a message, or throws. */
  datatype Push =
    | More
    | Scanned(message: bytes, excess: nat)
    | BadHeader
    | AlreadyComplete

  /** The walk over the frames of a stream from a frame boundary on. */
  function Walk(s: bytes, offset: nat): Push
    requires offset <= |s|
    decreases |s| - offset
  {
    if |s| - offset < 5 then More
    else
      var end := offset + 5 + FromLittleEndian(s[offset + 1], s[offset + 2], s[offset + 3], s[offset + 4]);
      if |s| < end then More
      else if s[offset] == END then Scanned(s[..end], |s| - end)
      else Walk(s, end)
  }

  /** The answer the scanner owes a stream, however it was cut into chunks. */
  function Scan(s: bytes): Push {
    if |s| < 8 then More
    else if ReadHeader(s).Failed? then BadHeader
    else Walk(s, 8)
  }

  /** The scanner moves to `offset` whatever is fed from here on. */
  ghost predicate Reaches(s: bytes, offset: nat) {
    && 8 <= offset <= |s|
    && ReadHeader(s).Parsed?
    && forall x: bytes :: Walk(s + x, 8) == Walk(s + x, offset)
  }

  lemma HeaderOfExtension(s: bytes, x: bytes)
    requires |s| >= 8
    ensures ReadHeader(s + x).Parsed? <==> ReadHeader(s).Parsed?
    ensures ReadHeader(s).Parsed? ==>
              ReadHeader(s + x).value == ReadHeader(s).value && ReadHeader(s + x).rest == ReadHeader(s).rest + x
  {
    var t := s + x;
    assert t[..4] == s[..4];
    forall i | 0 <= i < 8 ensures t[i] == s[i] {}
    assert t[4..][2..] == t[6..] && s[4..][2..] == s[6..];
    assert t[6..][1..] == t[7..] && s[6..][1..] == s[7..];
    assert t[7..][1..] == t[8..] && s[7..][1..] == s[8..];
    assert t[8..] == s[8..] + x;
  }

  lemma Extend(s: bytes, x: bytes, offset: nat)
    requires Reaches(s, offset)
    ensures Reaches(s + x, offset)
  {
    hide Walk, ReadHeader;
    HeaderOfExtension(s, x);
    forall y: bytes ensures Walk(s + x + y, 8) == Walk(s + x + y, offset) {
      assert s + x + y == s + (x + y);
    }
  }

  lemma Arrive(s: bytes)
    requires |s| >= 8 && ReadHeader(s).Parsed?
    ensures Reaches(s, 8)
  {
  }

  /** Past a complete frame that is not the END frame. */
  lemma PassFrame(s: bytes, offset: nat, end: nat)
    requires Reaches(s, offset) && |s| - offset >= 5 && s[offset] != END
    requires end == offset + 5 + FromLittleEndian(s[offset + 1], s[offset + 2], s[offset + 3], s[offset + 4]) && end <= |s|
    ensures Reaches(s, end)
  {
    hide ReadHeader, FromLittleEndian;
    LengthIsNat(s[offset + 1], s[offset + 2], s[offset + 3], s[offset + 4]);
    forall x: bytes ensures Walk(s + x, 8) == Walk(s + x, end) {
      var t := s + x;
      assert forall i :: 0 <= i < |s| ==> t[i] == s[i];
      assert Walk(t, 8) == Walk(t, offset);
      assert Walk(t, offset) == Walk(t, end);
    }
  }

  lemma AtBoundary(s: bytes, offset: nat)
    requires Reaches(s, offset)
    ensures Scan(s) == Walk(s, offset)
  {
    hide Walk, ReadHeader;
    assert s + [] == s;
  }

  class MessageStreamScanner {
    var buffer: array<byte>
    var length: nat
    var offset: int
    var complete: bool
    /** Everything fed so far. */
    ghost var stream: bytes

    ghost predicate Valid()
      reads this, buffer
    {
      && 0 < buffer.Length && length <= buffer.Length
      && buffer[..length] == stream
      && (offset < 0 ==> offset == -1 && !complete && (|stream| >= 8 ==> ReadHeader(stream).Failed?))
      && (offset >= 0 && !complete ==> Reaches(stream, offset))
    }

    constructor ()
      ensures Valid() && fresh(buffer) && stream == [] && !complete
    {
      buffer := new byte[1024](_ => 0);
      length := 0;
      offset := -1;
      complete := false;
      stream := [];
    }

    method Started() returns (b: bool)
      requires Valid()
      ensures b <==> stream != []
    {
      b := length > 0;
    }

    /** Grows by doubling, keeps what was there, and puts the chunk behind it. */
    method Append(chunk: bytes)
      requires 0 < buffer.Length && length <= buffer.Length
      modifies this`buffer, this`length, buffer
      ensures 0 < buffer.Length && length <= buffer.Length && (buffer == old(buffer) || fresh(buffer))
      ensures buffer[..length] == old(buffer[..length]) + chunk
    {
      var needed := length + |chunk|;
      ghost var was := buffer[..length];
      if needed > buffer.Length {
        var capacity := buffer.Length;
        while capacity < needed
          invariant buffer.Length <= capacity
        {
          capacity := capacity * 2;
        }
        var grown := new byte[capacity](_ => 0);
        forall i | 0 <= i < length {
          grown[i] := buffer[i];
        }
        buffer := grown;
      }
      assert buffer[..length] == was;
      forall i | 0 <= i < |chunk| {
        buffer[length + i] := chunk[i];
      }
      assert buffer[..length] == was;
      assert buffer[length..needed] == chunk;
      length := needed;
      assert buffer[..length] == was + chunk;
    }

    method CheckHeader() returns (ok: bool)
      requires length <= buffer.Length && 8 <= length
      ensures ok <==> ReadHeader(buffer[..length]).Parsed?
    {
      HeaderBytes(buffer[..length]);
      if buffer[..4] != MAGIC { return false; }
      var wireVersion := FromLittleEndian2(buffer[4], buffer[5]);
      if !IsSupported(wireVersion) { return false; }
      if buffer[6] != 0x01 && buffer[6] != 0x02 { return false; }
      if buffer[7] != 0x00 { return false; }
      return true;
    }

    /** The answer depends on what was fed in all, not on how it was cut. */
    method Push(chunk: bytes) returns (r: Push)
      requires Valid()
      modifies this, buffer
      ensures Valid() && (buffer == old(buffer) || fresh(buffer))
      ensures old(complete) ==> r == AlreadyComplete && stream == old(stream) && complete
      ensures !old(complete) ==> stream == old(stream) + chunk && r == Scan(stream) && (complete <==> r.Scanned?)
    {
      hide Scan, Walk, ReadHeader, FromLittleEndian, Reaches;
      if complete { return AlreadyComplete; }
      ghost var before := stream;
      Append(chunk);
      stream := stream + chunk;
      if offset < 0 {
        ShortScan(stream);
        if length < 8 { return More; }
        var ok := CheckHeader();
        if before != [] && |before| >= 8 { HeaderOfExtension(before, chunk); }
        if !ok { return BadHeader; }
        Arrive(stream);
        offset := 8;
      } else {
        Extend(before, chunk, offset);
      }
      r := WalkFrames();
    }

    /** The loop over the buffered frames. */
    method WalkFrames() returns (r: Push)
      requires Valid() && !complete && offset >= 0
      modifies this`offset, this`complete
      ensures Valid() && r == Scan(stream) && (complete <==> r.Scanned?)
    {
      hide Scan, ReadHeader, FromLittleEndian, Reaches;
      while true
        invariant Valid() && !complete && offset >= 0
        decreases length - offset
      {
        OffsetInRange(stream, offset);
        AtBoundary(stream, offset);
        if length - offset < 5 { return More; }
        assert forall i :: 0 <= i < length ==> buffer[i] == stream[i];
        var frameType := buffer[offset];
        var frameLength := FromLittleEndian(buffer[offset + 1], buffer[offset + 2], buffer[offset + 3], buffer[offset + 4]);
        LengthIsNat(buffer[offset + 1], buffer[offset + 2], buffer[offset + 3], buffer[offset + 4]);
        var frameEnd := offset + 5 + frameLength;
        if length < frameEnd { return More; }
        if frameType == END {
          offset := frameEnd;
          complete := true;
          assert buffer[..frameEnd] == stream[..frameEnd];
          return Scanned(buffer[..frameEnd], length - frameEnd);
        }
        PassFrame(stream, offset, frameEnd);
        offset := frameEnd;
      }
    }
  }

  lemma OffsetInRange(s: bytes, offset: nat)
    requires Reaches(s, offset)
    ensures 8 <= offset <= |s|
  {
  }

  lemma LengthIsNat(a: byte, b: byte, c: byte, d: byte)
    ensures 0 <= FromLittleEndian(a, b, c, d)
  {
  }

  lemma ShortScan(s: bytes)
    ensures |s| < 8 ==> Scan(s) == More
    ensures |s| >= 8 && ReadHeader(s).Failed? ==> Scan(s) == BadHeader
  {
  }

  lemma HeaderBytes(s: bytes)
    requires |s| >= 8
    ensures ReadHeader(s).Parsed? <==>
              s[..4] == MAGIC && IsSupported(FromLittleEndian2(s[4], s[5])) && (s[6] == 1 || s[6] == 2) && s[7] == 0
  {
    assert s[4..][2..] == s[6..] && s[6..][1..] == s[7..];
  }
}
