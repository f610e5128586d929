/** The inbound half of the device codec: `parse_serial_message` and
    `get_tx_id` (lib/src/loupedeck/mod.rs), together with a device-side
    encoder that the parser inverts. */
module Codec {
  import opened Wrappers
  import opened Bytes
  import opened Constants

  /** The points where `parse_serial_message` panics. */
  datatype Panic =
    | IndexOutOfBounds        // a byte the branch reads is missing
    | UnknownHeader(code: u16) // `MessageHeader::from` on a code outside the table
    | InvalidButton           // "Invalid button address"
    | InvalidDirection        // "Invalid button direction"
    | InvalidKnob             // "Invalid knob address"
    | InvalidScreen           // "Invalid screen"

  /** ASCII white space, the part of Rust's `char::is_whitespace` that a
      single byte can carry. */
  predicate IsSpace(b: u8)
  {
    b == 0x20 || 0x09 <= b <= 0x0D
  }

  /** Drops leading white space. */
  function TrimStart(s: seq<u8>): (r: seq<u8>)
    ensures |r| <= |s| && r == s[|s| - |r|..]
    ensures |r| > 0 ==> !IsSpace(r[0])
    ensures forall k :: 0 <= k < |s| - |r| ==> IsSpace(s[k])
  {
    if |s| > 0 && IsSpace(s[0]) then TrimStart(s[1..]) else s
  }

  /** Drops trailing white space. */
  function TrimEnd(s: seq<u8>): (r: seq<u8>)
    ensures |r| <= |s| && r == s[..|r|]
    ensures |r| > 0 ==> !IsSpace(r[|r| - 1])
    ensures forall k :: |r| <= k < |s| ==> IsSpace(s[k])
  {
    if |s| > 0 && IsSpace(s[|s| - 1]) then TrimEnd(s[..|s| - 1]) else s
  }

  /** `str::trim` on the bytes of an ASCII string. */
  function Trim(s: seq<u8>): seq<u8>
  {
    TrimEnd(TrimStart(s))
  }

  /** A byte string that `Trim` leaves alone: empty, or without white space
      at either end. */
  predicate Trimmed(s: seq<u8>)
  {
    |s| == 0 || (!IsSpace(s[0]) && !IsSpace(s[|s| - 1]))
  }

  lemma TrimOfTrimmed(s: seq<u8>)
    requires Trimmed(s)
    ensures Trim(s) == s
  {
  }

  function DigitChar(d: nat): (c: char)
    requires d < 10
    ensures '0' <= c <= '9'
  {
    ['0', '1', '2', '3', '4', '5', '6', '7', '8', '9'][d]
  }

  /** Rust's `{}` formatting of an unsigned integer: decimal digits, no
      leading zero. */
  function Decimal(n: nat): (s: string)
    ensures |s| > 0
    ensures forall i :: 0 <= i < |s| ==> '0' <= s[i] <= '9'
    ensures s[0] == '0' ==> n == 0
    decreases n
  {
    if n < 10 then [DigitChar(n)] else Decimal(n / 10) + [DigitChar(n % 10)]
  }

  /** Reads a string of decimal digits; the reference that `Decimal` inverts. */
  function ParseDecimal(s: string): nat
    requires forall i :: 0 <= i < |s| ==> '0' <= s[i] <= '9'
    decreases |s|
  {
    if |s| == 0 then 0
    else ParseDecimal(s[..|s| - 1]) * 10 + (s[|s| - 1] as int - '0' as int)
  }

  lemma {:induction false} DecimalRoundTrip(n: nat)
    ensures ParseDecimal(Decimal(n)) == n
    decreases n
  {
    var s := Decimal(n);
    if n < 10 {
      assert s == [DigitChar(n)];
      assert s[..0] == [];
      assert ['0', '1', '2', '3', '4', '5', '6', '7', '8', '9'][n] as int - '0' as int == n;
    } else {
      DecimalRoundTrip(n / 10);
      assert s[..|s| - 1] == Decimal(n / 10);
      assert ['0', '1', '2', '3', '4', '5', '6', '7', '8', '9'][n % 10] as int - '0' as int == n % 10;
    }
  }

  /** The version string of a `VersionIn` reply: `major.minor.patch`. */
  function VersionString(major: u8, minor: u8, patch: u8): string
  {
    Decimal(major) + "." + Decimal(minor) + "." + Decimal(patch)
  }

  /** `get_tx_id`: every event carries the transaction id of its message. */
  function GetTxId(e: Event): (r: Option<u8>)
    ensures r == Some(e.txId)
  {
    match e
    case ButtonPressEvent(tx, _, _) => Some(tx)
    case KnobRotateEvent(tx, _, _) => Some(tx)
    case TouchEvent(tx, _, _, _, _, _) => Some(tx)
    case Other(tx) => Some(tx)
    case SerialInEvent(tx, _) => Some(tx)
    case VersionInEvent(tx, _) => Some(tx)
    case ConfirmFrameBufferIn(tx) => Some(tx)
    case DrawInEvent(tx) => Some(tx)
  }

  /** The header of a message, if its first two bytes name one. */
  function HeaderOf(m: seq<u8>): Option<MessageHeader>
  {
    if |m| < 2 then None else HeaderFromCode(FromBE16(m[0], m[1]))
  }

  /** The headers `parse_serial_message` has a branch of its own for; every
      other known header decodes to `Other`. */
  const Dispatched: set<MessageHeader> :=
    {MessageHeader.ButtonPress, MessageHeader.KnobRotate, TouchDown, TouchUp,
     MessageHeader.SerialIn, MessageHeader.VersionIn, ConfirmFrameBuffer, MessageHeader.DrawIn}

  /** `parse_serial_message`: decodes one message read from the device. The
      source's `Result<Option<Event>>` is always `Ok(Some(_))` when it does not
      panic, so the model's `Err` carries the panic instead. */
  function ParseSerialMessage(m: seq<u8>): (r: Result<Event, Panic>)
    ensures r.Ok? ==> |m| >= 3 && HeaderOf(m).Some? && GetTxId(r.value) == Some(m[2])
    ensures r.Ok? && r.value.ButtonPressEvent? ==>
              HeaderOf(m) == Some(MessageHeader.ButtonPress) && |m| >= 5
              && ButtonCode(r.value.button) == m[3] && DirectionFromU8(m[4]) == Some(r.value.dir)
    ensures r.Ok? && r.value.KnobRotateEvent? ==>
              HeaderOf(m) == Some(MessageHeader.KnobRotate) && |m| >= 5
              && KnobCode(r.value.knob) == m[3] && r.value.value == AsI8(m[4])
    ensures r.Ok? && r.value.TouchEvent? ==>
              HeaderOf(m) in {Some(TouchDown), Some(TouchUp)} && |m| >= 9
              && r.value.x == FromBE16(m[4], m[5]) && r.value.y == FromBE16(m[6], m[7])
              && r.value.touchId == m[8]
              && (r.value.dir == Down <==> HeaderOf(m) == Some(TouchDown))
              && ScreenFromX(r.value.x) == Some(r.value.screen)
    ensures r.Ok? ==> (r.value.ButtonPressEvent? <==> HeaderOf(m) == Some(MessageHeader.ButtonPress))
    ensures r.Ok? ==> (r.value.KnobRotateEvent? <==> HeaderOf(m) == Some(MessageHeader.KnobRotate))
    ensures r.Ok? ==> (r.value.TouchEvent? <==> HeaderOf(m) in {Some(TouchDown), Some(TouchUp)})
    ensures r.Ok? ==> (r.value.SerialInEvent? <==> HeaderOf(m) == Some(MessageHeader.SerialIn))
    ensures r.Ok? ==> (r.value.VersionInEvent? <==> HeaderOf(m) == Some(MessageHeader.VersionIn))
    ensures r.Ok? ==> (r.value.ConfirmFrameBufferIn? <==> HeaderOf(m) == Some(ConfirmFrameBuffer))
    ensures r.Ok? ==> (r.value.DrawInEvent? <==> HeaderOf(m) == Some(MessageHeader.DrawIn))
    ensures r.Ok? ==> (r.value.Other? <==> HeaderOf(m).value !in Dispatched)
    ensures r.Ok? && r.value.SerialInEvent? ==> r.value.serialNumber == Trim(m[3..])
    ensures r.Ok? && r.value.VersionInEvent? ==>
              |m| >= 6 && r.value.version == VersionString(m[3], m[4], m[5])
    ensures r.Err? <==>
              || HeaderOf(m).None? || |m| < 3
              || (HeaderOf(m) == Some(MessageHeader.ButtonPress)
                  && (|m| < 5 || ButtonFromU8(m[3]).None? || DirectionFromU8(m[4]).None?))
              || (HeaderOf(m) == Some(MessageHeader.KnobRotate) && (|m| < 5 || KnobFromU8(m[3]).None?))
              || (HeaderOf(m) in {Some(TouchDown), Some(TouchUp)}
                  && (|m| < 9 || FromBE16(m[4], m[5]) > 480))
              || (HeaderOf(m) == Some(MessageHeader.VersionIn) && |m| < 6)
  {
    if |m| < 2 then Err(IndexOutOfBounds)
    else
      var code := FromBE16(m[0], m[1]);
      match HeaderFromCode(code)
      case None => Err(UnknownHeader(code))
      case Some(header) =>
        if |m| < 3 then Err(IndexOutOfBounds) else ParseBody(header, m)
  }

  /** The per-header branches of `parse_serial_message`, after the header and
      the transaction id (byte 2) have been read. */
  function ParseBody(header: MessageHeader, m: seq<u8>): Result<Event, Panic>
    requires |m| >= 3
  {
    var tx := m[2];
    if header == MessageHeader.ButtonPress then
      if |m| < 4 then Err(IndexOutOfBounds)
      else match ButtonFromU8(m[3])
        case None => Err(InvalidButton)
        case Some(button) =>
          if |m| < 5 then Err(IndexOutOfBounds)
          else match DirectionFromU8(m[4])
            case None => Err(InvalidDirection)
            case Some(dir) => Ok(ButtonPressEvent(tx, button, dir))
    else if header == MessageHeader.KnobRotate then
      if |m| < 4 then Err(IndexOutOfBounds)
      else match KnobFromU8(m[3])
        case None => Err(InvalidKnob)
        case Some(knob) =>
          if |m| < 5 then Err(IndexOutOfBounds) else Ok(KnobRotateEvent(tx, knob, AsI8(m[4])))
    else if header == TouchDown || header == TouchUp then
      if |m| < 9 then Err(IndexOutOfBounds)
      else
        var x := FromBE16(m[4], m[5]);
        var y := FromBE16(m[6], m[7]);
        var dir := if header == TouchDown then Down else Up;
        match ScreenFromX(x)
        case None => Err(InvalidScreen)
        case Some(screen) => Ok(TouchEvent(tx, dir, m[8], x, y, screen))
    else if header == MessageHeader.SerialIn then
      Ok(SerialInEvent(tx, Trim(m[3..])))
    else if header == MessageHeader.VersionIn then
      if |m| < 6 then Err(IndexOutOfBounds) else Ok(VersionInEvent(tx, VersionString(m[3], m[4], m[5])))
    else if header == ConfirmFrameBuffer then
      Ok(ConfirmFrameBufferIn(tx))
    else if header == MessageHeader.DrawIn then
      Ok(DrawInEvent(tx))
    else
      Ok(Other(tx))
  }

  /** Every header without a branch of its own decodes to `Other`. */
  lemma ParseOtherHeaders(m: seq<u8>, h: MessageHeader)
    requires |m| >= 3 && HeaderOf(m) == Some(h)
    requires h !in Dispatched
    ensures ParseSerialMessage(m) == Ok(Other(m[2]))
  {
  }

  /** A `VersionIn` reply carries the three version bytes in decimal. */
  lemma ParseVersion(tx: u8, major: u8, minor: u8, patch: u8, rest: seq<u8>)
    ensures ParseSerialMessage([0x0c, 0x07, tx, major, minor, patch] + rest)
            == Ok(VersionInEvent(tx, VersionString(major, minor, patch)))
  {
    var m := [0x0c, 0x07, tx, major, minor, patch] + rest;
    assert HeaderOf(m) == Some(MessageHeader.VersionIn);
  }

  /** The wire byte the device uses for a direction. */
  function WireDirection(d: PressDirection): (b: u8)
    ensures DirectionFromU8(b) == Some(d)
  {
    match d
    case Down => 0x00
    case Up => 0x01
  }

  /** The events the device can send and the parser can return unchanged.
      `VersionIn` is left out: its payload is already a formatted string. */
  predicate Encodable(e: Event)
  {
    match e
    case KnobRotateEvent(_, _, v) => -0x80 <= v < 0x80
    case TouchEvent(_, _, _, x, _, s) => ScreenFromX(x) == Some(s)
    case SerialInEvent(_, sn) => Trimmed(sn)
    case VersionInEvent(_, _) => false
    case _ => true
  }

  /** How the device lays out an event on the wire; `parse_serial_message`
      reads it back. `Other` is sent under the `Confirm` header, and byte 3 of
      a touch message, which the parser skips, is sent as zero. */
  function EncodeEvent(e: Event): (m: seq<u8>)
    requires Encodable(e)
    ensures |m| >= 3 && m[2] == e.txId
  {
    match e
    case ButtonPressEvent(tx, b, d) =>
      HeaderBytes(MessageHeader.ButtonPress) + [tx, ButtonCode(b), WireDirection(d)]
    case KnobRotateEvent(tx, k, v) =>
      HeaderBytes(MessageHeader.KnobRotate) + [tx, KnobCode(k), (v + 0x100) % 0x100]
    case TouchEvent(tx, d, id, x, y, _) =>
      HeaderBytes(if d == Down then TouchDown else TouchUp) + [tx, 0x00] + BE16(x) + BE16(y) + [id]
    case Other(tx) => HeaderBytes(Confirm) + [tx]
    case SerialInEvent(tx, sn) => HeaderBytes(MessageHeader.SerialIn) + [tx] + sn
    case ConfirmFrameBufferIn(tx) => HeaderBytes(ConfirmFrameBuffer) + [tx]
    case DrawInEvent(tx) => HeaderBytes(MessageHeader.DrawIn) + [tx]
  }

  /** The header the device sends an event under. */
  function EventHeader(e: Event): (h: MessageHeader)
    requires Encodable(e)
    ensures EncodeEvent(e)[..2] == HeaderBytes(h)
  {
    match e
    case ButtonPressEvent(_, _, _) => MessageHeader.ButtonPress
    case KnobRotateEvent(_, _, _) => MessageHeader.KnobRotate
    case TouchEvent(_, d, _, _, _, _) => if d == Down then TouchDown else TouchUp
    case Other(_) => Confirm
    case SerialInEvent(_, _) => MessageHeader.SerialIn
    case ConfirmFrameBufferIn(_) => ConfirmFrameBuffer
    case DrawInEvent(_) => MessageHeader.DrawIn
  }

  /** The parser inverts the device's encoding. */
  lemma ParseEncode(e: Event)
    requires Encodable(e)
    ensures ParseSerialMessage(EncodeEvent(e)) == Ok(e)
  {
    var m := EncodeEvent(e);
    var h := EventHeader(e);
    HeaderRoundTrip(h);
    assert HeaderOf(m) == Some(h);
    ParseBodyEncode(e);
  }

  lemma ParseBodyEncode(e: Event)
    requires Encodable(e)
    ensures ParseBody(EventHeader(e), EncodeEvent(e)) == Ok(e)
  {
    match e
    case ButtonPressEvent(tx, b, d) => ParseButtonEncode(tx, b, d);
    case KnobRotateEvent(tx, k, v) => ParseKnobEncode(tx, k, v);
    case TouchEvent(tx, d, id, x, y, s) => ParseTouchEncode(tx, d, id, x, y, s);
    case SerialInEvent(tx, sn) => ParseSerialEncode(tx, sn);
    case Other(tx) =>
    case ConfirmFrameBufferIn(tx) =>
    case DrawInEvent(tx) =>
  }

  lemma ParseButtonEncode(tx: u8, b: Button, d: PressDirection)
    ensures ParseBody(MessageHeader.ButtonPress, EncodeEvent(ButtonPressEvent(tx, b, d))) == Ok(ButtonPressEvent(tx, b, d))
  {
    var m := EncodeEvent(ButtonPressEvent(tx, b, d));
    assert m[3] == ButtonCode(b) && m[4] == WireDirection(d);
    ButtonCodeRoundTrip(b);
  }

  lemma ParseKnobEncode(tx: u8, k: Knob, v: int)
    requires -0x80 <= v < 0x80
    ensures ParseBody(MessageHeader.KnobRotate, EncodeEvent(KnobRotateEvent(tx, k, v))) == Ok(KnobRotateEvent(tx, k, v))
  {
    var m := EncodeEvent(KnobRotateEvent(tx, k, v));
    assert m[3] == KnobCode(k) && m[4] == (v + 0x100) % 0x100;
    KnobCodeRoundTrip(k);
  }

  lemma ParseTouchEncode(tx: u8, d: PressDirection, id: u8, x: u16, y: u16, s: Screen)
    requires ScreenFromX(x) == Some(s)
    ensures ParseBody(if d == Down then TouchDown else TouchUp, EncodeEvent(TouchEvent(tx, d, id, x, y, s)))
            == Ok(TouchEvent(tx, d, id, x, y, s))
  {
    var m := EncodeEvent(TouchEvent(tx, d, id, x, y, s));
    assert m[4..6] == BE16(x) && m[6..8] == BE16(y) && m[8] == id;
  }

  lemma ParseSerialEncode(tx: u8, sn: seq<u8>)
    requires Trimmed(sn)
    ensures ParseBody(MessageHeader.SerialIn, EncodeEvent(SerialInEvent(tx, sn))) == Ok(SerialInEvent(tx, sn))
  {
    var m := EncodeEvent(SerialInEvent(tx, sn));
    assert m[3..] == sn;
    TrimOfTrimmed(sn);
  }

  lemma ButtonCodeRoundTrip(b: Button)
    ensures ButtonFromU8(ButtonCode(b)) == Some(b)
  {
  }

  lemma KnobCodeRoundTrip(k: Knob)
    ensures KnobFromU8(KnobCode(k)) == Some(k)
  {
  }
}
