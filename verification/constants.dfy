/** The device's wire vocabulary: message headers, button, knob and screen
    codes, haptic levels, and the events the parser produces
    (lib/src/loupedeck/constants.rs). */
module Constants {
  import opened Wrappers
  import opened Bytes

  /** The 16-bit message headers of the serial protocol. */
  datatype MessageHeader =
    | Confirm | SerialOut | VersionOut | Tick | SetBrightness
    | ConfirmFrameBuffer | SetVibration | ButtonPress | KnobRotate | Reset
    | DrawOut | DrawIn | SetColor | TouchDown | TouchUp | VersionIn | MCU
    | SerialIn | WriteFrameBuffer

  /** The declared discriminant of each header. */
  function HeaderCode(h: MessageHeader): u16
  {
    match h
    case Confirm => 0x0302
    case SerialOut => 0x0303
    case VersionOut => 0x0307
    case Tick => 0x0400
    case SetBrightness => 0x0409
    case ConfirmFrameBuffer => 0x0410
    case SetVibration => 0x041b
    case ButtonPress => 0x0500
    case KnobRotate => 0x0501
    case Reset => 0x0506
    case DrawOut => 0x050F
    case DrawIn => 0x040F
    case SetColor => 0x0702
    case TouchDown => 0x094d
    case TouchUp => 0x096d
    case VersionIn => 0x0c07
    case MCU => 0x180d
    case SerialIn => 0x1f03
    case WriteFrameBuffer => 0xff10
  }

  /** `MessageHeader::from(u16)`. The source panics on a code outside the
      table; here that case is `None`. */
  function HeaderFromCode(code: u16): (r: Option<MessageHeader>)
    ensures r.Some? ==> HeaderCode(r.value) == code
    ensures r.None? <==> forall h :: HeaderCode(h) != code
  {
    match code
    case 0x0302 => Some(Confirm)
    case 0x0303 => Some(SerialOut)
    case 0x0307 => Some(VersionOut)
    case 0x0400 => Some(Tick)
    case 0x0409 => Some(SetBrightness)
    case 0x0410 => Some(ConfirmFrameBuffer)
    case 0x041b => Some(SetVibration)
    case 0x0500 => Some(ButtonPress)
    case 0x0501 => Some(KnobRotate)
    case 0x050F => Some(DrawOut)
    case 0x040F => Some(DrawIn)
    case 0x0506 => Some(Reset)
    case 0x0702 => Some(SetColor)
    case 0x094d => Some(TouchDown)
    case 0x096d => Some(TouchUp)
    case 0x0c07 => Some(VersionIn)
    case 0x180d => Some(MCU)
    case 0x1f03 => Some(SerialIn)
    case 0xff10 => Some(WriteFrameBuffer)
    case _ => None
  }

  /** `Vec::<u8>::from(MessageHeader)`: the code's two bytes, high byte first. */
  function HeaderBytes(h: MessageHeader): (r: seq<u8>)
    ensures |r| == 2
    ensures r[0] == HeaderCode(h) / 0x100 && r[1] == HeaderCode(h) % 0x100
  {
    BE16(HeaderCode(h))
  }

  /** Decoding the bytes of a header gives back that header: the two tables
      agree code for code, and no two headers share a code. */
  lemma HeaderRoundTrip(h: MessageHeader)
    ensures HeaderFromCode(FromBE16(HeaderBytes(h)[0], HeaderBytes(h)[1])) == Some(h)
  {
    var code := FromBE16(HeaderBytes(h)[0], HeaderBytes(h)[1]);
    assert code == HeaderCode(h);
    match h
    case _ =>
  }

  /** The physical buttons (`Button`), declared with codes 0x01..0x0e. */
  datatype Button =
    | Knob0 | Knob1 | Knob2 | Knob3 | Knob4 | Knob5 | Home
    | Circle1 | Circle2 | Circle3 | Circle4 | Circle5 | Circle6 | Circle7

  function ButtonCode(b: Button): u8
  {
    match b
    case Knob0 => 0x01
    case Knob1 => 0x02
    case Knob2 => 0x03
    case Knob3 => 0x04
    case Knob4 => 0x05
    case Knob5 => 0x06
    case Home => 0x07
    case Circle1 => 0x08
    case Circle2 => 0x09
    case Circle3 => 0x0a
    case Circle4 => 0x0b
    case Circle5 => 0x0c
    case Circle6 => 0x0d
    case Circle7 => 0x0e
  }

  /** `Button::from_u8`: defined exactly on 0x01..=0x0e, the inverse of the
      declared discriminants. */
  function ButtonFromU8(v: u8): (r: Option<Button>)
    ensures r.Some? <==> 0x01 <= v <= 0x0e
    ensures r.Some? ==> ButtonCode(r.value) == v
  {
    match v
    case 0x01 => Some(Button.Knob0)
    case 0x02 => Some(Button.Knob1)
    case 0x03 => Some(Button.Knob2)
    case 0x04 => Some(Button.Knob3)
    case 0x05 => Some(Button.Knob4)
    case 0x06 => Some(Button.Knob5)
    case 0x07 => Some(Home)
    case 0x08 => Some(Circle1)
    case 0x09 => Some(Circle2)
    case 0x0a => Some(Circle3)
    case 0x0b => Some(Circle4)
    case 0x0c => Some(Circle5)
    case 0x0d => Some(Circle6)
    case 0x0e => Some(Circle7)
    case _ => None
  }

  /** The rotary knobs (`Knob`), declared with codes 0x01..0x06. */
  datatype Knob = Knob0 | Knob1 | Knob2 | Knob3 | Knob4 | Knob5

  function KnobCode(k: Knob): u8
  {
    match k
    case Knob0 => 0x01
    case Knob1 => 0x02
    case Knob2 => 0x03
    case Knob3 => 0x04
    case Knob4 => 0x05
    case Knob5 => 0x06
  }

  /** `Knob::from_u8`: defined exactly on 0x01..=0x06. */
  function KnobFromU8(v: u8): (r: Option<Knob>)
    ensures r.Some? <==> 0x01 <= v <= 0x06
    ensures r.Some? ==> KnobCode(r.value) == v
  {
    match v
    case 0x01 => Some(Knob.Knob0)
    case 0x02 => Some(Knob.Knob1)
    case 0x03 => Some(Knob.Knob2)
    case 0x04 => Some(Knob.Knob3)
    case 0x05 => Some(Knob.Knob4)
    case 0x06 => Some(Knob.Knob5)
    case _ => None
  }

  /** `PressDirection`, declared as Up = 0x00 and Down = 0x01. */
  datatype PressDirection = Up | Down

  function DirectionCode(d: PressDirection): u8
  {
    match d
    case Up => 0x00
    case Down => 0x01
  }

  function Opposite(d: PressDirection): PressDirection
  {
    match d
    case Up => Down
    case Down => Up
  }

  /** `PressDirection::from_u8`: the wire byte 0x00 means the button went
      down and 0x01 that it came up, which is the reverse of the declared
      discriminants. */
  function DirectionFromU8(v: u8): (r: Option<PressDirection>)
    ensures r.Some? <==> v <= 0x01
    ensures r == Some(Down) <==> v == 0x00
  {
    match v
    case 0x00 => Some(Down)
    case 0x01 => Some(Up)
    case _ => None
  }

  /** Reading a direction's own discriminant back yields the other direction. */
  lemma DirectionCodeIsReversed(d: PressDirection)
    ensures DirectionFromU8(DirectionCode(d)) == Some(Opposite(d))
  {
  }

  /** The three touch screens of the device. */
  datatype Screen = Left | Center | Right

  /** `u16::from(Screen)`: the screens' ASCII letters 'L', 'A' and 'R'. */
  function ScreenCode(s: Screen): (c: u16)
    ensures c < 0x100
  {
    match s
    case Left => 0x004C
    case Center => 0x0041
    case Right => 0x0052
  }

  /** `Vec::<u8>::from(Screen)`. */
  function ScreenBytes(s: Screen): (r: seq<u8>)
    ensures |r| == 2 && r[0] == 0x00 && r[1] == ScreenCode(s)
  {
    BE16(ScreenCode(s))
  }

  /** The three screens encode to three distinct byte strings. */
  lemma ScreenBytesInjective(s: Screen, t: Screen)
    ensures ScreenBytes(s) == ScreenBytes(t) ==> s == t
  {
    if ScreenBytes(s) == ScreenBytes(t) {
      assert ScreenBytes(s)[1] == ScreenBytes(t)[1];
    }
  }

  /** `Screen::from_x_coor`: which screen a touch at horizontal position `x`
      lands on; nothing beyond x = 480. */
  function ScreenFromX(x: u16): (r: Option<Screen>)
    ensures r == Some(Left) <==> x <= 60
    ensures r == Some(Center) <==> 61 <= x <= 420
    ensures r == Some(Right) <==> 421 <= x <= 480
    ensures r == None <==> x > 480
  {
    if x <= 60 then Some(Left)
    else if x <= 420 then Some(Center)
    else if x <= 480 then Some(Right)
    else None
  }

  /** Haptic feedback levels (`Haptic`). */
  datatype Haptic =
    | Short | Medium | Long | Low | ShortLow | ShortLower | Lower | Lowest
    | DescendSlow | DescendMed | DescendFast | AscendSlow | AscendMed | AscendFast
    | RevSlowest | RevSlow | RevMed | RevFast | RevFaster | RevFastest
    | RiseFall | Buzz | Rumble5 | Rumble4 | Rumble3 | Rumble2 | Rumble1 | VeryLong

  function HapticCode(h: Haptic): u8
  {
    match h
    case Short => 0x01
    case Medium => 0x0a
    case Long => 0x0f
    case Low => 0x31
    case ShortLow => 0x32
    case ShortLower => 0x33
    case Lower => 0x40
    case Lowest => 0x41
    case DescendSlow => 0x46
    case DescendMed => 0x47
    case DescendFast => 0x48
    case AscendSlow => 0x52
    case AscendMed => 0x53
    case AscendFast => 0x58
    case RevSlowest => 0x5e
    case RevSlow => 0x5f
    case RevMed => 0x60
    case RevFast => 0x61
    case RevFaster => 0x62
    case RevFastest => 0x63
    case RiseFall => 0x6a
    case Buzz => 0x70
    case Rumble5 => 0x77
    case Rumble4 => 0x78
    case Rumble3 => 0x79
    case Rumble2 => 0x7a
    case Rumble1 => 0x7b
    case VeryLong => 0x76
  }

  /** The events decoded from the device (`Event` and its payload structs).
      Strings are kept as the bytes the device sent. */
  datatype Event =
    | ButtonPressEvent(txId: u8, button: Button, dir: PressDirection)
    | KnobRotateEvent(txId: u8, knob: Knob, value: int)
    | TouchEvent(txId: u8, dir: PressDirection, touchId: u8, x: u16, y: u16, screen: Screen)
    | Other(txId: u8)
    | SerialInEvent(txId: u8, serialNumber: seq<u8>)
    | VersionInEvent(txId: u8, version: string)
    | ConfirmFrameBufferIn(txId: u8)
    | DrawInEvent(txId: u8)

  /** The horizontal extent of one key on the centre screen (`KEY_SIZE`). */
  const KeySize: u16 := 90
}
