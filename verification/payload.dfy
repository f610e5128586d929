/** The outbound half of the device codec (lib/src/loupedeck/mod.rs):
    the frame-buffer payload of `construct_draw_buffer_payload`, the framing
    of `construct_message_payload`, and `From<ExternalMessage> for Vec<u8>`.

    The frame is the client-to-server frame of the WebSocket protocol that
    the serial link is upgraded to (section 5.2 of RFC 6455): 0x82 (final
    fragment, binary), then the mask bit with the payload length, then an
    all-zero masking key. `DecodeFrameHeader` reads that header back and is
    the reference the framing is proved against. */
module Payload {
  import opened Wrappers
  import opened Bytes
  import opened Constants

  // ---------------------------------------------------------------------
  // Frame headers as section 5.2 of RFC 6455 reads them
  // ---------------------------------------------------------------------

  /** Reads eight bytes, most significant first. */
  function FromBE64(b: seq<u8>): nat
    requires |b| == 8
  {
    FromBE32(b[..4]) * 0x1_0000_0000 + FromBE32(b[4..])
  }

  /** What a receiver learns from the start of a frame. */
  datatype FrameHeader = FrameHeader(
    first: u8,            // FIN, RSV and opcode bits
    masked: bool,         // the MASK bit
    payloadLength: nat,
    maskKey: seq<u8>,     // empty when not masked
    headerLength: nat)    // where the payload starts

  /** Decodes a frame header: a 7-bit length up to 125, 126 for a 16-bit
      extended length, 127 for a 64-bit one, then four mask-key bytes when
      the mask bit is set. `None` when the frame is too short. Section 5.2
      of RFC 6455 also asks for the shortest length encoding; this reader
      does not enforce that, and accepts the 64-bit form for any length. */
  function DecodeFrameHeader(f: seq<u8>): (r: Option<FrameHeader>)
    ensures r.Some? ==> r.value.headerLength <= |f| && |r.value.maskKey| == (if r.value.masked then 4 else 0)
  {
    if |f| < 2 then None
    else
      var masked := f[1] >= 0x80;
      var len7 := f[1] % 0x80;
      var lengthEnd := if len7 <= 125 then 2 else if len7 == 126 then 4 else 10;
      var headerLength := lengthEnd + (if masked then 4 else 0);
      if |f| < headerLength then None
      else
        var payloadLength :=
          if len7 <= 125 then len7 as nat
          else if len7 == 126 then FromBE16(f[2], f[3]) as nat
          else FromBE64(f[2..10]);
        Some(FrameHeader(f[0], masked, payloadLength, f[lengthEnd..headerLength], headerLength))
  }

  // ---------------------------------------------------------------------
  // construct_message_payload
  // ---------------------------------------------------------------------

  /** The short prefix: opcode byte, length byte, zero masking key. */
  function ShortPrefix(lengthByte: u8): seq<u8>
  {
    [0x82, lengthByte, 0, 0, 0, 0]
  }

  /** The long prefix: opcode byte, 0xFF, the length as a 64-bit big-endian
      number whose upper half is zero, and a zero masking key. `len as u32`
      keeps only the low 32 bits of the length. */
  function LongPrefix(len: nat): seq<u8>
  {
    [0x82, 0xFF, 0, 0, 0, 0] + BE32(len % 0x1_0000_0000) + [0, 0, 0, 0]
  }

  /** Concatenates prefix and body and then overwrites body byte 2 with the
      transaction id (`message[prefix_buff.len() + 2] = tx_id`). */
  function WithTxId(prefix: seq<u8>, body: seq<u8>, txId: u8): (r: seq<u8>)
    requires |body| >= 3
    ensures |r| == |prefix| + |body| && r[..|prefix|] == prefix
    ensures r[|prefix| + 2] == txId
    ensures forall i :: 0 <= i < |body| && i != 2 ==> r[|prefix| + i] == body[i]
    ensures r[|prefix|..] == body[2 := txId]
  {
    var r := (prefix + body)[|prefix| + 2 := txId];
    assert forall i :: 0 <= i < |body| ==> r[|prefix|..][i] == body[2 := txId][i];
    r
  }

  /** A frame as the device expects it: its header decodes as a final binary
      frame (first byte 0x82), masked with the all-zero key, and its
      payload, after the header, is exactly `body`. */
  predicate FrameCarries(f: seq<u8>, body: seq<u8>)
  {
    var h := DecodeFrameHeader(f);
    && h.Some? && h.value.first == 0x82 && h.value.masked && h.value.maskKey == [0, 0, 0, 0]
    && h.value.payloadLength == |body|
    && h.value.headerLength + |body| == |f| && f[h.value.headerLength..] == body
  }

  /** `construct_message_payload` as written: the short form for bodies up
      to 0xff bytes, where `0x80 + len as u8` wraps around (a release build;
      a debug build panics instead) once the body reaches 128 bytes. A body
      shorter than 3 bytes makes the tx-id write index out of bounds, so it
      is excluded. */
  function MessagePayloadAsWritten(body: seq<u8>, txId: u8): (r: seq<u8>)
    requires |body| >= 3
    ensures |body| <= 0xff ==> |r| == 6 + |body| && r[..6] == ShortPrefix((0x80 + |body|) % 0x100)
    ensures |body| > 0xff ==> |r| == 14 + |body| && r[..14] == LongPrefix(|body|)
    ensures CarriesAsWritten(r, body[2 := txId])
  {
    var r := if |body| > 0xff then WithTxId(LongPrefix(|body|), body, txId)
             else WithTxId(ShortPrefix((0x80 + |body|) % 0x100), body, txId);
    assert r == r[..|AsWrittenPrefix(|body|)|] + r[|AsWrittenPrefix(|body|)|..];
    r
  }

  /** The prefix `construct_message_payload` puts in front of a body of
      `len` bytes: the short form, with its wrapping length byte, up to 0xff
      bytes and the long form beyond. */
  function AsWrittenPrefix(len: nat): seq<u8>
  {
    if len > 0xff then LongPrefix(len) else ShortPrefix((0x80 + len) % 0x100)
  }

  /** `frame` is the prefix the source writes for a body of that length,
      followed by exactly `body`. */
  predicate CarriesAsWritten(frame: seq<u8>, body: seq<u8>)
  {
    frame == AsWrittenPrefix(|body|) + body
  }

  /** The largest payload length a frame may carry in its 7-bit length field. */
  const MaxShortLength := 125

  /** `construct_message_payload` with the short form limited to bodies the
      7-bit length field can describe; the form every caller in the model
      uses. The frame's header reads back as a masked binary frame with a
      zero key whose payload is the body, with byte 2 replaced by `txId`. */
  function MessagePayload(body: seq<u8>, txId: u8): (r: seq<u8>)
    requires |body| >= 3
    ensures var h := DecodeFrameHeader(r);
            && h.Some? && h.value.first == 0x82 && h.value.masked && h.value.maskKey == [0, 0, 0, 0]
            && h.value.headerLength == |r| - |body|
            && (|body| < 0x1_0000_0000 ==> h.value.payloadLength == |body|)
    ensures |r| == (if |body| <= MaxShortLength then 6 else 14) + |body|
    ensures r[|r| - |body|..] == body[2 := txId]
    ensures |body| < 0x1_0000_0000 ==> FrameCarries(r, body[2 := txId])
  {
    if |body| > MaxShortLength then
      LongFrameHeader(body, txId);
      WithTxId(LongPrefix(|body|), body, txId)
    else
      ShortFrameHeader(body, txId);
      WithTxId(ShortPrefix(0x80 + |body|), body, txId)
  }

  lemma LongFrameHeader(body: seq<u8>, txId: u8)
    requires |body| >= 3
    ensures DecodeFrameHeader(WithTxId(LongPrefix(|body|), body, txId))
            == Some(FrameHeader(0x82, true, |body| % 0x1_0000_0000, [0, 0, 0, 0], 14))
  {
    var r := WithTxId(LongPrefix(|body|), body, txId);
    var p := LongPrefix(|body|);
    assert r[..14] == p;
    assert r[0] == p[0] == 0x82 && r[1] == p[1] == 0xFF;
    assert r[2..10] == p[2..10] == [0, 0, 0, 0] + BE32(|body| % 0x1_0000_0000);
    assert r[2..10][..4] == [0, 0, 0, 0] && r[2..10][4..] == BE32(|body| % 0x1_0000_0000);
    assert r[10..14] == p[10..14] == [0, 0, 0, 0];
  }

  lemma ShortFrameHeader(body: seq<u8>, txId: u8)
    requires 3 <= |body| <= MaxShortLength
    ensures DecodeFrameHeader(WithTxId(ShortPrefix(0x80 + |body|), body, txId))
            == Some(FrameHeader(0x82, true, |body|, [0, 0, 0, 0], 6))
  {
    var r := WithTxId(ShortPrefix(0x80 + |body|), body, txId);
    var p := ShortPrefix(0x80 + |body|);
    assert r[..6] == p;
    assert r[0] == p[0] == 0x82 && r[1] == p[1] == 0x80 + |body|;
    assert r[2..6] == p[2..6] == [0, 0, 0, 0];
  }

  /** The two versions agree on every body length except 126..=255, and
      every frame a caller in the source builds is outside that range. */
  lemma MessagePayloadAgrees(body: seq<u8>, txId: u8)
    requires |body| >= 3
    requires |body| <= MaxShortLength || |body| > 0xff
    ensures MessagePayloadAsWritten(body, txId) == MessagePayload(body, txId)
  {
  }

  /** As written, a body of 128..=255 bytes gets a length byte whose mask bit
      is clear and whose 7-bit length is the body length minus 128. */
  lemma AsWrittenLengthByteWraps(body: seq<u8>, txId: u8)
    requires 128 <= |body| <= 0xff
    ensures var r := MessagePayloadAsWritten(body, txId);
            && r[1] == |body| - 128
            && DecodeFrameHeader(r).Some? && !DecodeFrameHeader(r).value.masked
  {
    var r := MessagePayloadAsWritten(body, txId);
    assert r[..6] == ShortPrefix((0x80 + |body|) % 0x100);
    assert r[1] == |body| - 128;
  }

  /** A 128-byte body: the frame as written announces an unmasked empty
      payload. */
  lemma AsWrittenCounterexample()
    ensures var body := seq(128, _ => 0);
            var h := DecodeFrameHeader(MessagePayloadAsWritten(body, 1));
            h.Some? && h.value.payloadLength == 0 && !h.value.masked
  {
    var body: seq<u8> := seq(128, _ => 0);
    var r := MessagePayloadAsWritten(body, 1);
    assert r[..6] == ShortPrefix(0);
    assert r[1] == 0;
  }

  /** A 126-byte body: the length field 126 sends the receiver to a 16-bit
      extended length, which reads the zero key bytes as 0. */
  lemma AsWrittenCounterexample126()
    ensures var body := seq(126, _ => 0);
            var h := DecodeFrameHeader(MessagePayloadAsWritten(body, 1));
            h.Some? && h.value.payloadLength == 0
  {
    var body: seq<u8> := seq(126, _ => 0);
    var r := MessagePayloadAsWritten(body, 1);
    assert r[..6] == ShortPrefix(0xFE);
    assert r[1] == 0xFE && r[2] == 0 && r[3] == 0;
  }

  // ---------------------------------------------------------------------
  // construct_draw_buffer_payload
  // ---------------------------------------------------------------------

  datatype DrawError = InvalidBufferLength

  /** Two bytes per pixel of a `width` x `height` region. */
  function PixelBytes(width: u16, height: u16): nat
  {
    width as int * height * 2
  }

  /** Screen code, x, y, width and height, each two bytes big-endian. */
  function DrawHeader(screen: Screen, x: u16, y: u16, width: u16, height: u16): (r: seq<u8>)
    ensures |r| == 10
    ensures r[..2] == ScreenBytes(screen)
    ensures FromBE16(r[2], r[3]) == x && FromBE16(r[4], r[5]) == y
    ensures FromBE16(r[6], r[7]) == width && FromBE16(r[8], r[9]) == height
  {
    ScreenBytes(screen) + BE16(x) + BE16(y) + BE16(width) + BE16(height)
  }

  /** `construct_draw_buffer_payload` as written: the expected length
      `width * height * 2` is computed in `u16`, which wraps (a release
      build; a debug build panics) once the product reaches 0x10000. */
  function DrawBufferPayloadAsWritten(screen: Screen, x: u16, y: u16, width: u16, height: u16, buffer: seq<u8>)
    : (r: Result<seq<u8>, DrawError>)
    ensures r.Ok? <==> PixelBytes(width, height) % 0x1_0000 == |buffer|
    ensures r.Ok? ==> r.value == DrawHeader(screen, x, y, width, height) + buffer
  {
    if PixelBytes(width, height) % 0x1_0000 != |buffer| then Err(InvalidBufferLength)
    else Ok(DrawHeader(screen, x, y, width, height) + buffer)
  }

  /** A 256 x 128 region accepts an empty pixel buffer as written. */
  lemma DrawBufferCounterexample()
    ensures DrawBufferPayloadAsWritten(Center, 0, 0, 256, 128, []).Ok?
    ensures DrawBufferPayload(Center, 0, 0, 256, 128, []).Err?
  {
  }

  /** `construct_draw_buffer_payload` with the length check done without
      wrap-around: it fails exactly when the buffer is not two bytes per
      pixel, and otherwise yields the ten-byte header followed by the pixels. */
  function DrawBufferPayload(screen: Screen, x: u16, y: u16, width: u16, height: u16, buffer: seq<u8>)
    : (r: Result<seq<u8>, DrawError>)
    ensures r.Err? <==> PixelBytes(width, height) != |buffer|
    ensures r.Ok? ==> |r.value| == 10 + |buffer| && r.value[10..] == buffer
                      && r.value[..10] == DrawHeader(screen, x, y, width, height)
  {
    if PixelBytes(width, height) != |buffer| then Err(InvalidBufferLength)
    else
      var r := DrawHeader(screen, x, y, width, height) + buffer;
      assert r[10..] == buffer && r[..10] == DrawHeader(screen, x, y, width, height);
      Ok(r)
  }

  /** The two versions agree whenever the product fits in 16 bits, as it does
      for the 90 x 90 keys `draw_key` draws. */
  lemma DrawBufferPayloadAgrees(screen: Screen, x: u16, y: u16, width: u16, height: u16, buffer: seq<u8>)
    requires PixelBytes(width, height) < 0x1_0000
    ensures DrawBufferPayloadAsWritten(screen, x, y, width, height, buffer)
            == DrawBufferPayload(screen, x, y, width, height, buffer)
  {
  }

  /** The header the source's own test expects for a key at (180, 0). */
  lemma DrawHeaderExample()
    ensures DrawHeader(Center, 180, 0, 90, 90) == [0x00, 0x41, 0x00, 0xb4, 0x00, 0x00, 0x00, 0x5a, 0x00, 0x5a]
  {
    assert ScreenBytes(Center) == [0x00, 0x41];
    assert BE16(180) == [0x00, 0xb4];
    assert BE16(0) == [0x00, 0x00];
    assert BE16(90) == [0x00, 0x5a];
  }

  // ---------------------------------------------------------------------
  // ExternalMessage
  // ---------------------------------------------------------------------

  /** A message a plugin asks the device to send: a two-byte action header
      and its data. */
  datatype ExternalMessage = ExternalMessage(action: seq<u8>, data: seq<u8>)

  /** The three-byte command header followed by the data: action bytes, then
      the placeholder 0x01 that the frame's tx id replaces. */
  function CommandBody(action: seq<u8>, data: seq<u8>): (r: seq<u8>)
    requires |action| >= 2
    ensures |r| == 3 + |data| && r[..2] == action[..2] && r[2] == 0x01 && r[3..] == data
  {
    [action[0], action[1], 0x01] + data
  }

  /** `From<ExternalMessage> for Vec<u8>`: the command framed with tx id 1.
      Because the placeholder is already 1, the frame's payload is exactly
      the command body. Indexing `action[0]` and `action[1]` needs two
      action bytes. */
  function ExternalMessageBytes(m: ExternalMessage): (r: seq<u8>)
    requires |m.action| >= 2
    ensures |r| >= |m.data| + 3
    ensures r[|r| - |m.data| - 3..] == [m.action[0], m.action[1], 0x01] + m.data
    ensures |m.data| + 3 < 0x1_0000_0000 ==> FrameCarries(r, [m.action[0], m.action[1], 0x01] + m.data)
  {
    var body := CommandBody(m.action, m.data);
    assert body[2 := 1] == body;
    MessagePayload(body, 1)
  }
}
