/**
 * The text decoder of packages/core/src/bytes.ts:16 drops a leading byte order mark, so the claim that
 * every value has exactly one byte sequence fails for texts behind one. Here is a message for which it does.
 */
module ByteOrderMarks {
  import opened Results
  import opened Hosts
  import opened Primitives
  import opened Messages
  import opened FrameFormats
  import opened FrameRules
  import opened FrameReader
  import opened FrameWriter
  import opened FrameEncoder
  import opened FrameDecoder
  import opened Grammar
  import opened Envelope
  import opened MessageLaws
  import Utf8

  function Marked(): string { "\U{FEFF}a" }

  function Plain(): string { "a" }

  /** A request that asks for a pull in the name of the given client. */
  function PullBy(client: string): Message {
    Message(1, Request, [ReqHeader(client, 1, None), PullHeader(0, 0, 0, 0)])
  }

  lemma Sizes()
    ensures IsStr(Marked()) && IsStr(Plain()) && !Utf8.Clean(Marked()) && Utf8.Clean(Plain())
    ensures Marked()[1..] == Plain() && Marked() != Plain() && Plain() != []
    ensures |Utf8.Encode(Marked())| <= 8 && |Utf8.Encode(Plain())| <= 8
  {
    hide Utf8.EncodeChar;
    assert Marked()[1..] == Plain() && Plain()[1..] == [];
    assert |Utf8.Encode(Plain())| <= 4;
    assert |Utf8.Encode(Marked())| <= 8;
    assert |Marked()| == 2 && |Plain()| == 1;
  }

  /** The marked text arrives without its mark. */
  lemma MarkDropped(k: bytes)
    ensures ReadStr(false, PutStr(Marked(), k)) == Parsed(Plain(), k)
  {
    hide Utf8.Encode, PutU32, ReadU32, Utf8.DecodeText, Utf8.Clean;
    Sizes();
    var b := Utf8.Encode(Marked());
    BytesLaws(b, k, []);
    Utf8.TextRoundTrip(Marked());
    Utf8.DecodersAgree(b);
  }

  lemma HeaderFits(host: Host, client: string)
    requires client != [] && IsStr(client)
    ensures Fits(host, 1, PullBy(client).frames[0]) && Fits(host, 1, PullBy(client).frames[1])
    ensures AllAcceptable(host, PullBy(client).frames) && WellTyped(PullBy(client)) && !HasDetails(PullBy(client).frames)
    ensures WireMessage(host, PullBy(client)) == PullBy(client)
  {
    hide IsStr;
    var fs := PullBy(client).frames;
    assert WireFrames(host, fs) == fs;
  }

  lemma PullAccepted(client: string)
    ensures Accepts(PullBy(client))
  {
    var ts := Tokens(PullBy(client).frames);
    assert ts == [TReqHeader, TPull];
    assert ts[1..] == [TPull];
    assert RequestStep(RequestStart, TPull) == Some(RequestState(0, true));
    assert [TPull][1..] == [];
    assert RequestRun(RequestState(0, true), []) == Some(RequestState(0, true));
    assert RequestRun(RequestStart, [TPull]) == Some(RequestState(0, true));
  }

  lemma HeaderPayload(host: Host, client: string)
    ensures Payload(host, 1, PullBy(client).frames[0]) == PutStr(client, PutI32(1, []))
    ensures IsBytes(Payload(host, 1, PullBy(client).frames[1]))
  {
    hide PutStr, PutI32, ReqHeaderFormat1, PullHeaderFormat;
    var fs := PullBy(client).frames;
    ReqHeaderPut(1, fs[0], []);
    PullHeaderPut(fs[1], []);
    PullSize(fs[1]);
  }

  lemma PullSize(f: Frame)
    requires f.PullHeader?
    ensures |PutPullHeader(f, [])| == 13
  {
  }

  lemma PullEncodable(host: Host, client: string)
    requires client != [] && |Utf8.Encode(client)| <= 8
    ensures Encodable(host, PullBy(client))
  {
    hide Fits, Payload, Accepts;
    HeaderFits(host, client);
    PullAccepted(client);
    HeaderPayload(host, client);
    assert |PutStr(client, PutI32(1, []))| <= 16;
    var fs := PullBy(client).frames;
    assert FrameEncodable(host, 1, fs[0]) && FrameEncodable(host, 1, fs[1]);
  }

  lemma MarkedHeaderDecodes(host: Host)
    ensures DecodePayload(host, false, Request, 1, 0x01, PutStr(Marked(), PutI32(1, []))) == Ok(ReqHeader(Plain(), 1, None))
  {
    hide PutStr, ReadStr, PutI32, ReadI32, ReqHeaderFormat1;
    var payload := PutStr(Marked(), PutI32(1, []));
    MarkDropped(PutI32(1, []));
    I32RoundTrip(1, []);
    Sizes();
    ReqHeaderRead(1, payload);
  }

  lemma MarkedFramesDecode(host: Host)
    ensures ReadFrames(host, false, Request, 1, PutFrames(host, 1, PullBy(Marked()).frames)) == Ok(PullBy(Plain()).frames)
  {
    hide DecodePayload, ReadFrames, PutStr, PutI32, PutU8, PutBytes, Payload, Fits, Accepts;
    var fs := PullBy(Marked()).frames;
    Sizes();
    PullEncodable(host, Marked());
    HeaderFits(host, Marked());
    HeaderPayload(host, Marked());
    MarkedHeaderDecodes(host);
    var rest := [PullHeader(0, 0, 0, 0)];
    assert fs[1..] == rest;
    assert FrameEncodable(host, 1, fs[0]) && FrameEncodable(host, 1, fs[1]);
    OneFrame(host, false, Request, 1, 0x01, Payload(host, 1, fs[0]), PutFrames(host, 1, rest));
    FramesRoundTrip(host, Request, 1, rest);
    assert WireFrames(host, rest) == rest;
    assert PullBy(Plain()).frames == [ReqHeader(Plain(), 1, None)] + rest;
  }

  /** Two byte sequences, one of them the encoding of the value both decode to. */
  lemma CanonicityFailsBehindAMark(host: Host)
    ensures var b := Encoding(host, PullBy(Marked()));
            && Decoded(host, false, b) == Ok(PullBy(Plain()))
            && Encodable(host, PullBy(Plain())) && Encoding(host, PullBy(Plain())) != b
  {
    hide ReadFrames, PutFrames, Fits, Accepts, Decoded, Encoding;
    Sizes();
    DecodedEncoding(host, false, PullBy(Marked()));
    MarkedFramesDecode(host);
    PullAccepted(Plain());
    PullEncodable(host, Marked());
    PullEncodable(host, Plain());
    HeaderFits(host, Marked());
    HeaderFits(host, Plain());
    KeptRoundTrip(host, PullBy(Marked()));
    KeptRoundTrip(host, PullBy(Plain()));
  }
}
