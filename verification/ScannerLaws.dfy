/** Chunk independence of the stream scanner, and its agreement with `decodeMessage`. */
module ScannerLaws {
  import opened Results
  import opened Hosts
  import opened Primitives
  import opened Messages
  import opened FrameDecoder
  import opened Envelope
  import opened MessageLaws
  import opened Scanner

  // ----- The answer to a longer stream ------------------------------------------------------------------

  lemma {:induction false} WalkExtends(s: bytes, x: bytes, offset: nat)
    requires offset <= |s|
    ensures Walk(s, offset).Scanned? ==>
              var r := Walk(s, offset);
              && |r.message| + r.excess == |s| && r.message == s[..|r.message|] && offset < |r.message|
              && Walk(s + x, offset) == Scanned(r.message, r.excess + |x|)
    ensures !Walk(s, offset).Scanned? ==> Walk(s, offset) == More
    decreases |s| - offset
  {
    hide FromLittleEndian;
    if |s| - offset >= 5 {
      var t := s + x;
      assert forall i :: 0 <= i < |s| ==> t[i] == s[i];
      LengthIsNat(s[offset + 1], s[offset + 2], s[offset + 3], s[offset + 4]);
      var end := offset + 5 + FromLittleEndian(s[offset + 1], s[offset + 2], s[offset + 3], s[offset + 4]);
      if end <= |s| {
        assert t[..end] == s[..end];
        if s[offset] != END { WalkExtends(s, x, end); }
      }
    }
  }

  /** A message found is found in every longer stream, and whatever is fed after it is excess. */
  lemma ScanExtends(s: bytes, x: bytes)
    ensures Scan(s).Scanned? ==>
              var r := Scan(s);
              |r.message| + r.excess == |s| && r.message == s[..|r.message|] && Scan(s + x) == Scanned(r.message, r.excess + |x|)
    ensures Scan(s) == BadHeader ==> Scan(s + x) == BadHeader
    ensures Scan(s) != AlreadyComplete
  {
    hide Walk, ReadHeader;
    if |s| >= 8 {
      HeaderOfExtension(s, x);
      if ReadHeader(s).Parsed? { WalkExtends(s, x, 8); }
    }
  }

  lemma {:induction false} WalkAlone(s: bytes, n: nat, offset: nat)
    requires offset <= n <= |s| && Walk(s, offset).Scanned?
    ensures n < |Walk(s, offset).message| ==> Walk(s[..n], offset) == More
    ensures n >= |Walk(s, offset).message| ==> Walk(s[..n], offset) == Scanned(Walk(s, offset).message, n - |Walk(s, offset).message|)
    decreases |s| - offset
  {
    hide FromLittleEndian;
    var t := s[..n];
    LengthIsNat(s[offset + 1], s[offset + 2], s[offset + 3], s[offset + 4]);
    var end := offset + 5 + FromLittleEndian(s[offset + 1], s[offset + 2], s[offset + 3], s[offset + 4]);
    WalkExtends(s, [], offset);
    if s[offset] != END { WalkExtends(s, [], end); }
    if n >= end {
      assert t[..end] == s[..end];
      if s[offset] != END { WalkAlone(s, n, end); }
    }
  }

  /** On a prefix of a stream that holds a message the scanner waits until it has all of it. */
  lemma ScanPrefix(s: bytes, n: nat)
    requires Scan(s).Scanned? && n <= |s|
    ensures n < |Scan(s).message| ==> Scan(s[..n]) == More
    ensures n >= |Scan(s).message| ==> Scan(s[..n]) == Scanned(Scan(s).message, n - |Scan(s).message|)
  {
    hide Walk, ReadHeader;
    WalkExtends(s, [], 8);
    if n >= 8 {
      assert s == s[..n] + s[n..];
      HeaderOfExtension(s[..n], s[n..]);
      WalkAlone(s, n, 8);
    }
  }

  // ----- Runs of a scanner ------------------------------------------------------------------------------

  /** What a scanner holds: the bytes fed, and whether it has returned a message. */
  datatype State = State(stream: bytes, complete: bool)

  /** The contract of `push`, as a step. */
  function Step(s: State, chunk: bytes): (State, Push) {
    if s.complete then (s, AlreadyComplete)
    else
      var r := Scan(s.stream + chunk);
      (State(s.stream + chunk, r.Scanned?), r)
  }

  function Run(s: State, chunks: seq<bytes>): (answers: seq<Push>)
    ensures |answers| == |chunks|
    decreases |chunks|
  {
    if chunks == [] then [] else
    var (next, r) := Step(s, chunks[0]);
    [r] + Run(next, chunks[1..])
  }

  const Fresh := State([], false)

  /** A new scanner, fed one chunk after the other, runs as `Run` says. */
  method Feed(chunks: seq<bytes>) returns (answers: seq<Push>)
    ensures answers == Run(Fresh, chunks)
  {
    hide Scan;
    var scanner := new MessageStreamScanner();
    answers := [];
    for i := 0 to |chunks|
      invariant scanner.Valid() && fresh(scanner) && fresh(scanner.buffer)
      invariant answers + Run(State(scanner.stream, scanner.complete), chunks[i..]) == Run(Fresh, chunks)
    {
      assert chunks[i..][0] == chunks[i] && chunks[i..][1..] == chunks[i + 1..];
      var answer := scanner.Push(chunks[i]);
      answers := answers + [answer];
    }
  }

  function Concat(chunks: seq<bytes>): bytes {
    if chunks == [] then [] else chunks[0] + Concat(chunks[1..])
  }

  lemma {:induction false} ConcatSnoc(chunks: seq<bytes>, i: nat)
    requires i < |chunks|
    ensures Concat(chunks[..i + 1]) == Concat(chunks[..i]) + chunks[i]
    decreases i
  {
    var a, b := chunks[..i + 1], chunks[..i];
    if i == 0 {
      assert a == [chunks[0]] && b == [];
      assert Concat(a) == chunks[0] + Concat(a[1..]);
    } else {
      assert a[1..] == chunks[1..][..i] && b[1..] == chunks[1..][..i - 1];
      ConcatSnoc(chunks[1..], i - 1);
    }
  }

  /** The concatenation of the first `i` chunks is a prefix of the whole. */
  lemma {:induction false} ConcatPrefix(chunks: seq<bytes>, i: nat)
    requires i <= |chunks|
    ensures |Concat(chunks[..i])| <= |Concat(chunks)| && Concat(chunks[..i]) == Concat(chunks)[..|Concat(chunks[..i])|]
    decreases |chunks| - i
  {
    if i < |chunks| {
      ConcatPrefix(chunks, i + 1);
      ConcatSnoc(chunks, i);
    } else {
      assert chunks[..i] == chunks;
    }
  }

  /** The answer a fresh scanner gives to the chunk at `i`. */
  function Answer(chunks: seq<bytes>, i: nat): Push
    requires i < |chunks|
  {
    if Scan(Concat(chunks[..i])).Scanned? then AlreadyComplete else Scan(Concat(chunks[..i + 1]))
  }

  /** A state reached by feeding `fed` to a fresh scanner. */
  predicate Reached(s: State, fed: bytes) {
    if s.complete then Scan(fed).Scanned? else s.stream == fed && !Scan(fed).Scanned?
  }

  lemma StepReached(s: State, fed: bytes, chunk: bytes)
    requires Reached(s, fed)
    ensures Reached(Step(s, chunk).0, fed + chunk)
    ensures Step(s, chunk).1 == if Scan(fed).Scanned? then AlreadyComplete else Scan(fed + chunk)
  {
    hide Scan;
    ScanExtends(fed, chunk);
  }

  lemma {:induction false} RunAnswers(s: State, chunks: seq<bytes>, i: nat, j: nat)
    requires i <= j < |chunks| && Reached(s, Concat(chunks[..i]))
    ensures Run(s, chunks[i..])[j - i] == Answer(chunks, j)
    decreases |chunks| - i
  {
    hide Scan, Step, Reached;
    var rest := chunks[i..];
    assert rest[0] == chunks[i] && rest[1..] == chunks[i + 1..];
    StepReached(s, Concat(chunks[..i]), chunks[i]);
    ConcatSnoc(chunks, i);
    var next := Step(s, chunks[i]).0;
    if j > i { RunAnswers(next, chunks, i + 1, j); }
  }

  /**
   * Chunk independence: the answer to each chunk is a function of the concatenation so far. While no
   * message is in it the answer is the scan of that concatenation; the first chunk that brings the
   * END frame gets the message, with everything fed beyond it as excess; later chunks are refused.
   */
  lemma ChunkIndependence(chunks: seq<bytes>)
    ensures forall i :: 0 <= i < |chunks| ==> Run(Fresh, chunks)[i] == Answer(chunks, i)
  {
    hide Scan, Step;
    assert chunks[0..] == chunks && Concat(chunks[..0]) == [];
    assert Reached(Fresh, []) by { EmptyScan(); }
    forall i | 0 <= i < |chunks| ensures Run(Fresh, chunks)[i] == Answer(chunks, i) { RunAnswers(Fresh, chunks, 0, i); }
  }

  lemma EmptyScan()
    ensures Scan([]) == More
  {
  }

  /**
   * Where a message ends up: the chunks that do not complete it ask for more, the one that brings
   * its last byte returns it with the bytes fed beyond as excess, and those after are refused.
   * The message is the same for every way to cut the stream.
   */
  lemma CompletesAtItsEnd(chunks: seq<bytes>, i: nat)
    requires i < |chunks| && Scan(Concat(chunks)).Scanned?
    ensures var message := Scan(Concat(chunks)).message;
            var before, fed := |Concat(chunks[..i])|, |Concat(chunks[..i + 1])|;
            Run(Fresh, chunks)[i] == if fed < |message| then More
                                     else if before < |message| then Scanned(message, fed - |message|)
                                     else AlreadyComplete
  {
    hide Scan, Run;
    ChunkIndependence(chunks);
    ConcatPrefix(chunks, i);
    ConcatPrefix(chunks, i + 1);
    ConcatSnoc(chunks, i);
    ScanPrefix(Concat(chunks), |Concat(chunks[..i])|);
    ScanPrefix(Concat(chunks), |Concat(chunks[..i + 1])|);
  }

  // ----- Agreement with the decoder ---------------------------------------------------------------------

  /** A walk over frames that decode ends at the END frame, the last thing in the input. */
  lemma {:induction false} WalkOfFrames(host: Host, keepBom: bool, kind: MsgKind, v: int, b: bytes, offset: nat)
    requires offset <= |b| && ReadFrames(host, keepBom, kind, v, b[offset..]).Ok?
    ensures Walk(b, offset) == Scanned(b, 0)
    decreases |b| - offset
  {
    hide DecodePayload, FromLittleEndian, ReadRecord;
    RecordAt(b, offset);
    var end := offset + 5 + FromLittleEndian(b[offset + 1], b[offset + 2], b[offset + 3], b[offset + 4]);
    if b[offset] == END {
      assert b[..|b|] == b;
    } else {
      WalkOfFrames(host, keepBom, kind, v, b, end);
    }
  }

  /** The decoder's view of a frame record and the scanner's. */
  lemma RecordAt(b: bytes, offset: nat)
    requires offset <= |b| && ReadRecord(b[offset..]).Parsed?
    ensures |b| - offset >= 5
    ensures var r := ReadRecord(b[offset..]);
            var end := offset + 5 + FromLittleEndian(b[offset + 1], b[offset + 2], b[offset + 3], b[offset + 4]);
            r.value.0 == b[offset] && |r.value.1| == end - offset - 5 && end <= |b| && r.rest == b[end..]
  {
    hide FromLittleEndian;
    var s := b[offset..];
    RecordProgress(s);
    var s1 := s[1..];
    assert s1[0] == b[offset + 1] && s1[1] == b[offset + 2] && s1[2] == b[offset + 3] && s1[3] == b[offset + 4];
    var n := FromLittleEndian(s1[0], s1[1], s1[2], s1[3]);
    assert s1[4..][n..] == b[offset + 5 + n..];
  }

  /** The scanner finds a decodable message to be all of its bytes. */
  lemma DecodableScans(host: Host, keepBom: bool, b: bytes)
    requires Decoded(host, keepBom, b).Ok?
    ensures Scan(b) == Scanned(b, 0)
  {
    hide ReadFrames, ReadHeader, Walk, Accepts;
    HeaderExact(b);
    HeaderRest(b);
    var (v, kind) := ReadHeader(b).value;
    WalkOfFrames(host, keepBom, kind, v, b, 8);
  }

  lemma HeaderRest(b: bytes)
    requires ReadHeader(b).Parsed?
    ensures |b| >= 8 && ReadHeader(b).rest == b[8..]
  {
    assert b[4..][2..][1..][1..] == b[8..];
  }

  /** The last chunk with anything in it. */
  predicate LastNonEmpty(chunks: seq<bytes>, i: nat) {
    i < |chunks| && chunks[i] != [] && forall j :: i < j < |chunks| ==> chunks[j] == []
  }

  lemma {:induction false} EmptyChunks(chunks: seq<bytes>, i: nat)
    requires i <= |chunks| && forall j :: i <= j < |chunks| ==> chunks[j] == []
    ensures Concat(chunks[..i]) == Concat(chunks)
    decreases |chunks| - i
  {
    if i < |chunks| {
      EmptyChunks(chunks, i + 1);
      ConcatSnoc(chunks, i);
    } else {
      assert chunks[..i] == chunks;
    }
  }

  /**
   * Scanner and decoder agree: every way to cut a decodable envelope asks for more up to its last
   * non-empty chunk, which returns exactly the envelope with nothing in excess.
   */
  lemma ScannerAgreesWithDecoder(host: Host, chunks: seq<bytes>, i: nat)
    requires Decoded(host, false, Concat(chunks)).Ok? && LastNonEmpty(chunks, i)
    ensures Run(Fresh, chunks)[i] == Scanned(Concat(chunks), 0)
    ensures forall j :: 0 <= j < i ==> Run(Fresh, chunks)[j] == More
  {
    hide Scan, Run, Decoded;
    var b := Concat(chunks);
    DecodableScans(host, false, b);
    EmptyChunks(chunks, i + 1);
    ConcatSnoc(chunks, i);
    CompletesAtItsEnd(chunks, i);
    forall j | 0 <= j < i ensures Run(Fresh, chunks)[j] == More {
      CompletesAtItsEnd(chunks, j);
      ConcatPrefix(chunks[..i], j + 1);
      assert chunks[..i][..j + 1] == chunks[..j + 1];
    }
  }

  /** No decodable message is a proper prefix of another. */
  lemma MessagesPrefixFree(host: Host, b: bytes, x: bytes)
    requires Decoded(host, false, b).Ok? && x != []
    ensures Decoded(host, false, b + x).Err?
  {
    hide Scan, Decoded;
    DecodableScans(host, false, b);
    ScanExtends(b, x);
    if Decoded(host, false, b + x).Ok? { DecodableScans(host, false, b + x); }
  }
}
