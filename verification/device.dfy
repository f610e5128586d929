/** The pure part of `Device` (lib/src/loupedeck/mod.rs): transaction-id
    allocation in `send`, the frames `send_message`, `vibrate`,
    `draw_buffer`, `refresh_screen` and `draw_key` hand to the serial writer.
    The serial port, the runtime and the reply-matching task are not part of
    the model; a send is its frame. */
module DeviceModel {
  import opened Wrappers
  import opened Bytes
  import opened Constants
  import opened Payload

  /** The state `send` reads and writes: `next_tx_id`. */
  datatype Device = Device(nextTxId: u8)

  /** `Device::new` starts numbering replies at 2; 1 is the id of every
      fire-and-forget message. */
  const NewDevice := Device(2)

  /** The id fire-and-forget messages carry. */
  const UnsolicitedTxId: u8 := 1

  datatype Allocation = Allocation(device: Device, txId: u8)

  /** The tx-id choice in `send`. `next_tx_id += 1` on a `u8` wraps (a release
      build; a debug build panics) after 255. */
  function AllocateTxId(d: Device, expectEvent: bool): (a: Allocation)
    ensures !expectEvent ==> a == Allocation(d, UnsolicitedTxId)
    ensures expectEvent ==> a.txId == d.nextTxId && a.device.nextTxId == (d.nextTxId + 1) % 0x100
  {
    if expectEvent then Allocation(Device((d.nextTxId + 1) % 0x100), d.nextTxId)
    else Allocation(d, UnsolicitedTxId)
  }

  /** The ids a run of sends gets, in order, and the device afterwards. */
  datatype Allocations = Allocations(device: Device, txIds: seq<u8>)

  /** Allocates an id for each send of a run, in order. `TxIdNumbering`
      states which id each send gets and `CounterAfterRun` where the counter
      ends up. */
  function AllocateAll(d: Device, expects: seq<bool>): (r: Allocations)
    ensures |r.txIds| == |expects|
    decreases |expects|
  {
    if |expects| == 0 then Allocations(d, [])
    else
      var a := AllocateTxId(d, expects[0]);
      var rest := AllocateAll(a.device, expects[1..]);
      Allocations(rest.device, [a.txId] + rest.txIds)
  }

  /** How many sends in a run expect a reply. */
  function CountExpecting(expects: seq<bool>): nat
    decreases |expects|
  {
    if |expects| == 0 then 0 else (if expects[0] then 1 else 0) + CountExpecting(expects[1..])
  }

  lemma CountExpectingBound(expects: seq<bool>, i: nat)
    requires i <= |expects|
    ensures CountExpecting(expects[..i]) <= CountExpecting(expects)
    decreases |expects|
  {
    if i > 0 {
      assert expects[..i][1..] == expects[1..][..i - 1];
      CountExpectingBound(expects[1..], i - 1);
    }
  }

  /** Fire-and-forget sends carry id 1 and leave the counter alone; the k-th
      send that expects a reply (counting from 0) carries the starting
      counter plus k, modulo 256. */
  lemma {:induction false} TxIdNumbering(d: Device, expects: seq<bool>, i: nat)
    requires i < |expects|
    ensures AllocateAll(d, expects).txIds[i]
            == (if expects[i] then (d.nextTxId + CountExpecting(expects[..i])) % 0x100 else UnsolicitedTxId)
    decreases i
  {
    if i == 0 {
      assert expects[..0] == [];
    } else {
      var a := AllocateTxId(d, expects[0]);
      var c0 := if expects[0] then 1 else 0;
      TxIdNumbering(a.device, expects[1..], i - 1);
      assert AllocateAll(d, expects).txIds[i] == AllocateAll(a.device, expects[1..]).txIds[i - 1];
      assert expects[..i][1..] == expects[1..][..i - 1];
      var k := CountExpecting(expects[1..][..i - 1]);
      assert CountExpecting(expects[..i]) == c0 + k;
      ModShift(d.nextTxId + c0, k);
    }
  }

  /** The counter after a run has advanced once per reply-expecting send. */
  lemma {:induction false} CounterAfterRun(d: Device, expects: seq<bool>)
    ensures AllocateAll(d, expects).device.nextTxId == (d.nextTxId + CountExpecting(expects)) % 0x100
    decreases |expects|
  {
    if |expects| > 0 {
      var a := AllocateTxId(d, expects[0]);
      var c0 := if expects[0] then 1 else 0;
      CounterAfterRun(a.device, expects[1..]);
      ModShift(d.nextTxId + c0, CountExpecting(expects[1..]));
    }
  }

  lemma ModShift(a: nat, k: nat)
    ensures (a % 0x100 + k) % 0x100 == (a + k) % 0x100
  {
  }

  /** Starting from a new device, up to 255 replies get pairwise distinct
      ids, none of them the fire-and-forget id 1. */
  lemma FreshReplyIdsDistinct(expects: seq<bool>, i: nat, j: nat)
    requires CountExpecting(expects) <= 255
    requires i < j < |expects| && expects[i] && expects[j]
    ensures var ids := AllocateAll(NewDevice, expects).txIds;
            && ids[i] != ids[j] && ids[i] != UnsolicitedTxId && ids[j] != UnsolicitedTxId
  {
    TxIdNumbering(NewDevice, expects, i);
    TxIdNumbering(NewDevice, expects, j);
    CountPrefixStep(expects, i);
    CountPrefixMonotone(expects, i + 1, j);
    CountPrefixStep(expects, j);
    CountExpectingBound(expects, j + 1);
    var ci, cj := CountExpecting(expects[..i]), CountExpecting(expects[..j]);
    assert ci < cj <= 254;
    FreshIdsApart(ci, cj);
  }

  /** Two counts below 255 give distinct ids past 2, neither of them 1. */
  lemma FreshIdsApart(ci: nat, cj: nat)
    requires ci < cj <= 254
    ensures (2 + ci) % 0x100 != (2 + cj) % 0x100
    ensures (2 + ci) % 0x100 != 1 && (2 + cj) % 0x100 != 1
  {
  }

  lemma {:induction false} CountPrefixStep(expects: seq<bool>, i: nat)
    requires i < |expects|
    ensures CountExpecting(expects[..i + 1]) == CountExpecting(expects[..i]) + (if expects[i] then 1 else 0)
    decreases i
  {
    if i == 0 {
      assert expects[..1][1..] == [];
    } else {
      assert expects[..i + 1][1..] == expects[1..][..i];
      assert expects[..i][1..] == expects[1..][..i - 1];
      CountPrefixStep(expects[1..], i - 1);
    }
  }

  lemma CountPrefixMonotone(expects: seq<bool>, i: nat, j: nat)
    requires i <= j <= |expects|
    ensures CountExpecting(expects[..i]) <= CountExpecting(expects[..j])
    decreases j - i
  {
    if i < j {
      CountPrefixStep(expects, j - 1);
      CountPrefixMonotone(expects, i, j - 1);
    }
  }

  /** After 255 replies the counter has wrapped: the 256th reply-expecting
      send from a new device reuses id 1. */
  lemma TxIdWrapsOntoUnsolicited()
    ensures AllocateAll(NewDevice, seq(256, _ => true)).txIds[255] == UnsolicitedTxId
  {
    var expects: seq<bool> := seq(256, _ => true);
    TxIdNumbering(NewDevice, expects, 255);
    AllTrueCount(expects[..255]);
  }

  lemma AllTrueCount(expects: seq<bool>)
    requires forall i :: 0 <= i < |expects| ==> expects[i]
    ensures CountExpecting(expects) == |expects|
    decreases |expects|
  {
    if |expects| > 0 {
      AllTrueCount(expects[1..]);
    }
  }

  /** One frame handed to the serial writer, and the device after it. */
  datatype Sent = Sent(device: Device, txId: u8, frame: seq<u8>)

  /** `send`: allocate the id, then frame the body with it. */
  function Send(d: Device, body: seq<u8>, expectEvent: bool): (s: Sent)
    requires |body| >= 3
    ensures s.device == AllocateTxId(d, expectEvent).device
    ensures s.txId == (if expectEvent then d.nextTxId else UnsolicitedTxId)
    ensures |s.frame| > |body| && s.frame[|s.frame| - |body|..] == body[2 := s.txId]
    ensures |body| < 0x1_0000_0000 ==> FrameCarries(s.frame, body[2 := s.txId])
  {
    var a := AllocateTxId(d, expectEvent);
    Sent(a.device, a.txId, MessagePayload(body, a.txId))
  }

  /** `send_message`: the command header `action[0], action[1], 0x01`, the
      data, then `send`. */
  function SendMessage(d: Device, action: seq<u8>, data: seq<u8>, expectEvent: bool): (s: Sent)
    requires |action| >= 2
    ensures s.device == AllocateTxId(d, expectEvent).device
    ensures s.txId == (if expectEvent then d.nextTxId else UnsolicitedTxId)
    ensures |data| + 3 < 0x1_0000_0000 ==> FrameCarries(s.frame, action[..2] + [s.txId] + data)
  {
    var body := CommandBody(action, data);
    var tx := if expectEvent then d.nextTxId else UnsolicitedTxId;
    assert body[2 := tx] == action[..2] + [tx] + data;
    Send(d, body, expectEvent)
  }

  /** A plugin's message and the device's own fire-and-forget message are
      the same bytes on the wire. */
  lemma ExternalMessageIsUnsolicitedSend(d: Device, m: ExternalMessage)
    requires |m.action| >= 2
    ensures ExternalMessageBytes(m) == SendMessage(d, m.action, m.data, false).frame
  {
  }

  /** `vibrate`: a fire-and-forget `SetVibration` command with the level. */
  function Vibrate(d: Device, level: Haptic): (s: Sent)
    ensures s.device == d && s.txId == UnsolicitedTxId
    ensures FrameCarries(s.frame, HeaderBytes(SetVibration) + [UnsolicitedTxId, HapticCode(level)])
  {
    SendMessage(d, HeaderBytes(SetVibration), [HapticCode(level)], false)
  }

  /** The exact bytes of the vibration the controller triggers on a press. */
  lemma VibrateShortLowBytes(d: Device)
    ensures Vibrate(d, ShortLow).frame == [0x82, 0x84, 0, 0, 0, 0, 0x04, 0x1b, 0x01, 0x32]
  {
    assert HeaderBytes(SetVibration) == [0x04, 0x1b];
    var body := CommandBody([0x04, 0x1b], [0x32]);
    assert body == [0x04, 0x1b, 0x01, 0x32];
    assert MessagePayload(body, 1) == WithTxId(ShortPrefix(0x84), body, 1);
  }

  /** The frames a draw sends, and the device afterwards. */
  datatype Drawn = Drawn(device: Device, frames: seq<seq<u8>>)

  /** `draw_buffer`: on a well-sized buffer, a `WriteFrameBuffer` command
      with the payload and then the `DrawOut` refresh of the same screen,
      both expecting replies; on a bad length nothing is sent. */
  function DrawBuffer(d: Device, screen: Screen, x: u16, y: u16, width: u16, height: u16, buffer: seq<u8>)
    : (r: Result<Drawn, DrawError>)
    ensures r.Err? <==> PixelBytes(width, height) != |buffer|
    ensures r.Ok? ==>
              && |r.value.frames| == 2
              && r.value.device.nextTxId == (d.nextTxId + 2) % 0x100
              && FrameCarries(r.value.frames[1],
                              HeaderBytes(DrawOut) + [(d.nextTxId + 1) % 0x100] + ScreenBytes(screen))
    ensures r.Ok? && |buffer| < 0x1_0000_0000 - 13 ==>
              FrameCarries(r.value.frames[0],
                           HeaderBytes(WriteFrameBuffer) + [d.nextTxId]
                           + (DrawHeader(screen, x, y, width, height) + buffer))
  {
    match DrawBufferPayload(screen, x, y, width, height, buffer)
    case Err(e) => Err(e)
    case Ok(payload) =>
      var write := SendMessage(d, HeaderBytes(WriteFrameBuffer), payload, true);
      var refresh := SendMessage(write.device, HeaderBytes(DrawOut), ScreenBytes(screen), true);
      DrawBufferSends(d, payload, screen);
      Ok(Drawn(refresh.device, [write.frame, refresh.frame]))
  }

  lemma DrawBufferSends(d: Device, payload: seq<u8>, screen: Screen)
    ensures var write := SendMessage(d, HeaderBytes(WriteFrameBuffer), payload, true);
            var refresh := SendMessage(write.device, HeaderBytes(DrawOut), ScreenBytes(screen), true);
            && refresh.device.nextTxId == (d.nextTxId + 2) % 0x100
            && (|payload| + 3 < 0x1_0000_0000 ==>
                  FrameCarries(write.frame, HeaderBytes(WriteFrameBuffer) + [d.nextTxId] + payload))
            && FrameCarries(refresh.frame, HeaderBytes(DrawOut) + [(d.nextTxId + 1) % 0x100] + ScreenBytes(screen))
  {
    var write := SendMessage(d, HeaderBytes(WriteFrameBuffer), payload, true);
    WriteCommandFrame(d, payload);
    assert write.device.nextTxId == (d.nextTxId + 1) % 0x100;
    RefreshFrame(write.device, screen);
    ModShift(d.nextTxId + 1, 1);
  }

  /** The write command's frame carries the command with the device's id. */
  lemma WriteCommandFrame(d: Device, payload: seq<u8>)
    ensures var write := SendMessage(d, HeaderBytes(WriteFrameBuffer), payload, true);
            && write.device.nextTxId == (d.nextTxId + 1) % 0x100
            && (|payload| + 3 < 0x1_0000_0000 ==>
                  FrameCarries(write.frame, HeaderBytes(WriteFrameBuffer) + [d.nextTxId] + payload))
  {
    assert HeaderBytes(WriteFrameBuffer)[..2] == HeaderBytes(WriteFrameBuffer);
  }

  /** The refresh command's frame carries the screen with the device's id. */
  lemma RefreshFrame(d: Device, screen: Screen)
    ensures var refresh := SendMessage(d, HeaderBytes(DrawOut), ScreenBytes(screen), true);
            && refresh.device.nextTxId == (d.nextTxId + 1) % 0x100
            && FrameCarries(refresh.frame, HeaderBytes(DrawOut) + [d.nextTxId] + ScreenBytes(screen))
  {
    assert HeaderBytes(DrawOut)[..2] == HeaderBytes(DrawOut);
  }

  // ---------------------------------------------------------------------
  // The sends as the source writes them
  // ---------------------------------------------------------------------

  /** `send` over `construct_message_payload` as written. */
  function SendAsWritten(d: Device, body: seq<u8>, expectEvent: bool): (s: Sent)
    requires |body| >= 3
    ensures s.device == AllocateTxId(d, expectEvent).device
    ensures s.txId == (if expectEvent then d.nextTxId else UnsolicitedTxId)
    ensures |s.frame| > |body| && s.frame[|s.frame| - |body|..] == body[2 := s.txId]
    ensures |body| <= 0xff ==> |s.frame| == 6 + |body| && s.frame[..6] == ShortPrefix((0x80 + |body|) % 0x100)
    ensures |body| > 0xff ==> |s.frame| == 14 + |body| && s.frame[..14] == LongPrefix(|body|)
    ensures CarriesAsWritten(s.frame, body[2 := s.txId])
  {
    var a := AllocateTxId(d, expectEvent);
    Sent(a.device, a.txId, MessagePayloadAsWritten(body, a.txId))
  }

  /** `send_message` over the framer as written. */
  function SendMessageAsWritten(d: Device, action: seq<u8>, data: seq<u8>, expectEvent: bool): (s: Sent)
    requires |action| >= 2
    ensures s.device == AllocateTxId(d, expectEvent).device
    ensures s.txId == (if expectEvent then d.nextTxId else UnsolicitedTxId)
    ensures |s.frame| > |data| + 3 && s.frame[|s.frame| - |data| - 3..] == action[..2] + [s.txId] + data
    ensures |data| + 3 <= 0xff ==>
              |s.frame| == 9 + |data| && s.frame[..6] == ShortPrefix((0x83 + |data|) % 0x100)
    ensures |data| + 3 > 0xff ==> |s.frame| == 17 + |data| && s.frame[..14] == LongPrefix(|data| + 3)
    ensures CarriesAsWritten(s.frame, action[..2] + [s.txId] + data)
  {
    var body := CommandBody(action, data);
    var tx := if expectEvent then d.nextTxId else UnsolicitedTxId;
    assert body[2 := tx] == action[..2] + [tx] + data;
    SendAsWritten(d, body, expectEvent)
  }

  /** The modelled `send` is the source's on every body length outside
      126..=255, the lengths where the source's short header is wrong. */
  lemma SendAgrees(d: Device, body: seq<u8>, expectEvent: bool)
    requires |body| >= 3
    requires |body| <= MaxShortLength || |body| > 0xff
    ensures SendAsWritten(d, body, expectEvent) == Send(d, body, expectEvent)
  {
    MessagePayloadAgrees(body, AllocateTxId(d, expectEvent).txId);
  }

  /** The write command's frame, as written, carries the payload with the
      device's id. */
  lemma WriteCommandFrameAsWritten(d: Device, payload: seq<u8>)
    ensures var write := SendMessageAsWritten(d, HeaderBytes(WriteFrameBuffer), payload, true);
            && write.device.nextTxId == (d.nextTxId + 1) % 0x100
            && CarriesAsWritten(write.frame, HeaderBytes(WriteFrameBuffer) + [d.nextTxId] + payload)
  {
    assert HeaderBytes(WriteFrameBuffer)[..2] == HeaderBytes(WriteFrameBuffer);
  }

  /** The refresh command's frame, as written, carries the screen with the
      device's id. */
  lemma RefreshFrameAsWritten(d: Device, screen: Screen)
    ensures var refresh := SendMessageAsWritten(d, HeaderBytes(DrawOut), ScreenBytes(screen), true);
            && refresh.device.nextTxId == (d.nextTxId + 1) % 0x100
            && CarriesAsWritten(refresh.frame, HeaderBytes(DrawOut) + [d.nextTxId] + ScreenBytes(screen))
  {
    assert HeaderBytes(DrawOut)[..2] == HeaderBytes(DrawOut);
  }

  /** `draw_buffer` as written: the `u16` length check and the framer as
      written. */
  function DrawBufferAsWritten(d: Device, screen: Screen, x: u16, y: u16, width: u16, height: u16, buffer: seq<u8>)
    : (r: Result<Drawn, DrawError>)
    ensures r.Err? <==> PixelBytes(width, height) % 0x1_0000 != |buffer|
    ensures r.Ok? ==> |r.value.frames| == 2 && r.value.device.nextTxId == (d.nextTxId + 2) % 0x100
    ensures r.Ok? ==>
              CarriesAsWritten(r.value.frames[0],
                               HeaderBytes(WriteFrameBuffer) + [d.nextTxId]
                               + (DrawHeader(screen, x, y, width, height) + buffer))
    ensures r.Ok? ==>
              CarriesAsWritten(r.value.frames[1],
                               HeaderBytes(DrawOut) + [(d.nextTxId + 1) % 0x100] + ScreenBytes(screen))
  {
    match DrawBufferPayloadAsWritten(screen, x, y, width, height, buffer)
    case Err(e) => Err(e)
    case Ok(payload) =>
      var write := SendMessageAsWritten(d, HeaderBytes(WriteFrameBuffer), payload, true);
      WriteCommandFrameAsWritten(d, payload);
      var refresh := SendMessageAsWritten(write.device, HeaderBytes(DrawOut), ScreenBytes(screen), true);
      RefreshFrameAsWritten(write.device, screen);
      ModShift(d.nextTxId + 1, 1);
      Ok(Drawn(refresh.device, [write.frame, refresh.frame]))
  }

  /** The modelled `draw_buffer` is the source's whenever the pixel count
      fits the source's `u16` product and the write command's body (13 bytes
      of headers plus the buffer) avoids 126..=255 bytes. */
  lemma DrawBufferAgrees(d: Device, screen: Screen, x: u16, y: u16, width: u16, height: u16, buffer: seq<u8>)
    requires PixelBytes(width, height) < 0x1_0000
    requires 13 + |buffer| <= MaxShortLength || 13 + |buffer| > 0xff
    ensures DrawBufferAsWritten(d, screen, x, y, width, height, buffer) == DrawBuffer(d, screen, x, y, width, height, buffer)
  {
    DrawBufferPayloadAgrees(screen, x, y, width, height, buffer);
    if PixelBytes(width, height) == |buffer| {
      var payload := DrawHeader(screen, x, y, width, height) + buffer;
      var write := SendMessage(d, HeaderBytes(WriteFrameBuffer), payload, true);
      SendAgrees(d, CommandBody(HeaderBytes(WriteFrameBuffer), payload), true);
      SendAgrees(write.device, CommandBody(HeaderBytes(DrawOut), ScreenBytes(screen)), true);
    }
  }

  /** The wrapped length byte is reachable from `draw_buffer`: a 10 x 6
      region sends a 133-byte command whose header, as written, has length
      byte 5 and no mask bit. */
  lemma DrawBufferAsWrittenWraps(d: Device, buffer: seq<u8>)
    requires |buffer| == 120
    ensures var r := DrawBufferAsWritten(d, Center, 0, 0, 10, 6, buffer);
            r.Ok? && r.value.frames[0][1] == 5
    ensures DrawBuffer(d, Center, 0, 0, 10, 6, buffer).Ok?
  {
    assert PixelBytes(10, 6) == 120;
    var payload := DrawHeader(Center, 0, 0, 10, 6) + buffer;
    var body := CommandBody(HeaderBytes(WriteFrameBuffer), payload);
    AsWrittenLengthByteWraps(body, d.nextTxId);
  }

  /** The width and height of a key image. */
  const KeyImageSide: u16 := 90

  /** `draw_key`: draws a 90 x 90 image on the centre screen at the key's
      pixel origin, `KEY_SIZE * key` computed in `u16` (wrapping in a release
      build). The source drops the result, so a wrongly sized image simply
      sends nothing. */
  function DrawKey(d: Device, keyX: u16, keyY: u16, img: seq<u8>): (r: Drawn)
    ensures |img| != 2 * 90 * 90 ==> r == Drawn(d, [])
    ensures |img| == 2 * 90 * 90 ==>
              && |r.frames| == 2
              && FrameCarries(r.frames[0],
                              HeaderBytes(WriteFrameBuffer) + [d.nextTxId]
                              + (DrawHeader(Center, (KeySize * keyX) % 0x1_0000, (KeySize * keyY) % 0x1_0000, 90, 90)
                                 + img))
    ensures |img| == 2 * 90 * 90 ==>
              && r.device.nextTxId == (d.nextTxId + 2) % 0x100
              && FrameCarries(r.frames[1],
                              HeaderBytes(DrawOut) + [(d.nextTxId + 1) % 0x100] + ScreenBytes(Center))
  {
    match DrawBuffer(d, Center, (KeySize * keyX) % 0x1_0000, (KeySize * keyY) % 0x1_0000,
                     KeyImageSide, KeyImageSide, img)
    case Err(_) => Drawn(d, [])
    case Ok(drawn) => drawn
  }
}
