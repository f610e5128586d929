# Loupedeck controller core, modelled in Dafny

This project models the core of `loupedeck-rs`. That is a desktop controller for the Loupedeck Live. Users bind plugin-provided screens to keys of the device's centre touch screen, arrange those bindings in named pages, and switch between pages. The device speaks a binary protocol inside websocket frames over a serial port.

The model covers three parts.

- **The device wire codec** (`lib/src/loupedeck`):
  - the message-header, button, knob, direction, screen and haptic tables;
  - the inbound parser `parse_serial_message` and `get_tx_id`;
  - the outbound framers `construct_message_payload` and `construct_draw_buffer_payload`;
  - the serialisation of plugin messages;
  - the transaction-id counter of `send`;
  - `vibrate`, `draw_buffer` and `draw_key`;
  - the ARGB8888 → RGB565 pixel packing and `to_hex`.
- **The controller** (`lib/src/controller`):
  - the in-memory page store;
  - the plugin registry and its version gate;
  - page instantiation, `set_current_page`, the connection status and `list_plugins`;
  - the event routing of the loop that `start` spawns.
- **The page editor** (`app/pages/Editor.tsx`):
  - the upsert of a key binding into a page's screen list;
  - the `"id - ref"` picker label and its decoding;
  - the enablement rule of the "add page" button.

Files and modules:

| file | module | contents |
|---|---|---|
| `wrappers.dfy` | `Wrappers` | `Option`, `Result` |
| `bytes.dfy` | `Bytes` | `u8`/`u16`/`u32`, big- and little-endian encodings, `as i8` |
| `constants.dfy` | `Constants` | headers, buttons, knobs, directions, screens, haptics, events |
| `codec.dfy` | `Codec` | `parse_serial_message`, `get_tx_id`, and a device-side encoder the parser inverts |
| `payload.dfy` | `Payload` | websocket framing of commands, draw payloads, plugin messages, and a reference frame-header decoder |
| `device.dfy` | `DeviceModel` | the tx-id counter, `send`, `send_message`, `vibrate`, `draw_buffer`, `draw_key` |
| `pixels.dfy` | `Pixels` | RGB565 packing, draw-target conversion, `to_hex` and its reader |
| `registry.dfy` | `Registry` | `register_screen`, `to_local_plugin`, `load_from_path` |
| `controller.dfy` | `Controller` | page store, page instances, status, `start`, `list_plugins` |
| `routing.dfy` | `Routing` | the event loop spawned by `start` |
| `editor.dfy` | `Editor` | binding upsert, picker labels, add-page rule |

Modelling choices:

- **Integer widths.** Rust's fixed-width integers are bounded mathematical integers. Every place where the source can overflow computes the release-build wrap-around explicitly with `%`. These are `next_tx_id += 1`, `0x80 + len as u8`, `width * height * 2` and `KEY_SIZE * key`.
- **Panics.** The parser's panics become `Err` values of a `Panic` datatype.
- **Asynchronous parts.** Channel sends and the spawned loop become returned values:
  - the frames sent;
  - the page handed to the loop;
  - the routing actions.
- **Outside functions.** `KeyLocation::from_location` and plugin factories are not defined in the modelled files. The first is a function parameter; factories are opaque handles.

## Model

| member | source | states |
|---|---|---|
| Constants.HeaderFromCode | lib/src/loupedeck/constants.rs:27-52 | A code decodes to a header only if that header's declared discriminant is the code. It yields nothing (the source panics) exactly when no header has that code. |
| Constants.HeaderBytes | lib/src/loupedeck/constants.rs:54-58 | A header serialises to two bytes: the high byte of its code, then the low byte. |
| Constants.HeaderRoundTrip | lib/src/loupedeck/constants.rs:5-58 | For each of the 19 headers, decoding the big-endian value of its bytes gives the header back. The two tables agree code for code. |
| Constants.ButtonFromU8 | lib/src/loupedeck/constants.rs:62-99 | `Button::from_u8` is defined exactly on 0x01..=0x0e and inverts the declared discriminants. |
| Constants.KnobFromU8 | lib/src/loupedeck/constants.rs:179-200 | `Knob::from_u8` is defined exactly on 0x01..=0x06 and inverts the declared discriminants. |
| Constants.DirectionFromU8 | lib/src/loupedeck/constants.rs:209-217 | Defined only on 0x00 and 0x01. The byte 0x00 means Down. |
| Constants.DirectionCodeIsReversed | lib/src/loupedeck/constants.rs:204-217 | Reading a direction's declared discriminant back gives the opposite direction. |
| Constants.ScreenCode | lib/src/loupedeck/constants.rs:109-117 | Every screen's code fits in its low byte, so the high byte on the wire is zero. |
| Constants.ScreenBytes | lib/src/loupedeck/constants.rs:119-124 | A screen serialises as a zero byte followed by its letter. |
| Constants.ScreenBytesInjective | lib/src/loupedeck/constants.rs:109-124 | Distinct screens serialise to distinct bytes. |
| Constants.ScreenFromX | lib/src/loupedeck/constants.rs:166-175 | The screen is Left on [0,60], Center on [61,420] and Right on [421,480]. There is none beyond 480. |
| Codec.GetTxId | lib/src/loupedeck/mod.rs:83-95 | Every event yields `Some` of its own transaction id. |
| Codec.ParseSerialMessage | lib/src/loupedeck/mod.rs:19-81 | On success the message has at least 3 bytes and a known header, and the event's tx id is byte 2. The event's variant follows the header: ButtonPress, KnobRotate, TouchDown/TouchUp, SerialIn, VersionIn, ConfirmFrameBuffer and DrawIn each give their own event, and every other known header gives `Other`. Button events read the button from byte 3 and the direction from byte 4. Knob events read the value as byte 4 taken as `i8`. Touch events take x and y big-endian from bytes 4-7 and the touch id from byte 8; the direction is Down iff the header is TouchDown, and the screen is the classification of x. A serial number is the trimmed bytes from byte 3 on. A version is bytes 3-5 in decimal. The parse fails exactly on a short message, an unknown header, an invalid button, direction or knob, or an x beyond 480. |
| Codec.ParseOtherHeaders | lib/src/loupedeck/mod.rs:79 | Every known header without a branch of its own yields `Other` with the message's tx id. |
| Codec.ParseVersion | lib/src/loupedeck/mod.rs:71-74 | A `VersionIn` reply formats bytes 3-5 as decimal `major.minor.patch`. |
| Codec.DecimalRoundTrip | lib/src/loupedeck/mod.rs:73 | The decimal formatting of a byte used in the version string reads back as that number. |
| Codec.TrimOfTrimmed | lib/src/loupedeck/mod.rs:64-70 | A serial number without surrounding white space passes through `trim` unchanged. |
| Codec.ParseEncode | lib/src/loupedeck/mod.rs:19-81 | The parser inverts the device's layout of every event it can return unchanged. |
| Payload.DecodeFrameHeader | lib/src/loupedeck/mod.rs:147-193 | Reference reader of a frame header per section 5.2 of RFC 6455: 7-bit, 16-bit or 64-bit payload length, mask bit and key. It is the partner the framers are checked against. It does not enforce the section's minimal-length rule: a 64-bit length field is accepted for any length. |
| Payload.WithTxId | lib/src/loupedeck/mod.rs:186-190 | The message is the prefix followed by the body, with only body byte 2 replaced by the tx id. |
| Payload.MessagePayloadAsWritten | lib/src/loupedeck/mod.rs:147-193 | As written: a 6-byte prefix `[0x82, 0x80+len (wrapping), 0,0,0,0]` for bodies up to 0xff bytes, otherwise the 14-byte prefix with the length as big-endian `u32`. The frame is that prefix followed by the body with byte 2 set to the tx id. |
| Payload.MessagePayload | lib/src/loupedeck/mod.rs:147-193 | The corrected framer. Its frame decodes as a binary, masked frame with a zero key, whose payload length is the body's length and whose payload is the body with byte 2 set to the tx id. The frame is 6 or 14 bytes longer than the body. Like the source, it uses the 64-bit length form for 126..=65535-byte bodies, where section 5.2 of RFC 6455 asks for the 16-bit form. |
| Payload.MessagePayloadAgrees | lib/src/loupedeck/mod.rs:150-184 | The corrected framer equals the source's on every body length except 126..=255. |
| Payload.AsWrittenLengthByteWraps | lib/src/loupedeck/mod.rs:183 | As written, a body of 128..=255 bytes gets the length byte `len - 128` and loses the mask bit. |
| Payload.AsWrittenCounterexample | lib/src/loupedeck/mod.rs:183 | A 128-byte body is framed, as written, as an unmasked frame announcing an empty payload. |
| Payload.AsWrittenCounterexample126 | lib/src/loupedeck/mod.rs:183 | A 126-byte body is framed, as written, with the length code that announces a 16-bit extended length. |
| Payload.DrawHeader | lib/src/loupedeck/mod.rs:136-141 | The draw header is the screen's bytes, then x, y, width and height, each big-endian. |
| Payload.DrawBufferPayloadAsWritten | lib/src/loupedeck/mod.rs:121-145 | As written: the buffer is accepted iff `width*height*2` taken modulo 2^16 equals its length. |
| Payload.DrawBufferCounterexample | lib/src/loupedeck/mod.rs:129 | A 256 x 128 region accepts an empty buffer as written; the corrected check refuses it. |
| Payload.DrawBufferPayload | lib/src/loupedeck/mod.rs:121-145 | Fails exactly when the buffer is not two bytes per pixel. Otherwise it returns the 10-byte draw header followed by the buffer unchanged. |
| Payload.DrawBufferPayloadAgrees | lib/src/loupedeck/mod.rs:121-145 | Whenever the product fits in 16 bits, the corrected payload equals the source's. |
| Payload.DrawHeaderExample | lib/src/loupedeck/mod.rs:586-605 | The header of a key at (180, 0) on the centre screen is `00 41 00 b4 00 00 00 5a 00 5a`, as the source's test expects. |
| Payload.CommandBody | lib/src/loupedeck/mod.rs:445-452 | A command is the two action bytes, 0x01, then the data. |
| Payload.ExternalMessageBytes | lib/src/loupedeck/mod.rs:214-227 | A plugin's message is framed with tx id 1. The frame is a binary frame, masked with the zero key, carrying `action[0], action[1], 0x01, data`. |
| DeviceModel.AllocateTxId | lib/src/loupedeck/mod.rs:465-469 | A fire-and-forget send uses id 1 and leaves the counter alone. An expecting send takes the counter and advances it by one modulo 256. |
| DeviceModel.TxIdNumbering | lib/src/loupedeck/mod.rs:259-267 | From a new device, the i-th send gets id 1 if fire-and-forget. Otherwise it gets `(2 + number of earlier expecting sends) mod 256`. |
| DeviceModel.CounterAfterRun | lib/src/loupedeck/mod.rs:465-469 | After a run of sends, the counter has advanced by the number of expecting sends, modulo 256. |
| DeviceModel.FreshReplyIdsDistinct | lib/src/loupedeck/mod.rs:259-267 | From a new device, with at most 255 expecting sends, their ids are pairwise distinct and never 1. |
| DeviceModel.TxIdWrapsOntoUnsolicited | lib/src/loupedeck/mod.rs:468 | The 256th expecting send from a new device gets id 1, the id of fire-and-forget sends. |
| DeviceModel.Send | lib/src/loupedeck/mod.rs:457-499 | The frame sent is a binary frame (first byte 0x82), masked with the zero key, carrying the body with byte 2 set to the allocated id; the counter moves as allocation says. |
| DeviceModel.SendMessage | lib/src/loupedeck/mod.rs:439-455 | The frame is a binary frame masked with the zero key, carrying the action bytes, the allocated id in place of 0x01, then the data. |
| DeviceModel.SendAsWritten | lib/src/loupedeck/mod.rs:457-499 | `send` over the framer as written: the counter moves as allocation says. The frame is the as-written prefix for the body's length (6 bytes with the wrapping length byte up to 0xff bytes, 14 bytes beyond) followed by the body carrying the allocated id. |
| DeviceModel.SendMessageAsWritten | lib/src/loupedeck/mod.rs:439-455 | `send_message` over the framer as written: the frame is the as-written prefix for `3 + len(data)` bytes, then the action bytes, the allocated id and the data. |
| DeviceModel.SendAgrees | lib/src/loupedeck/mod.rs:147-193 | The modelled `send` equals the source's for every body outside 126..=255 bytes. |
| DeviceModel.ExternalMessageIsUnsolicitedSend | lib/src/loupedeck/mod.rs:214-227 | A plugin's message is byte for byte the device's own fire-and-forget `send_message`. |
| DeviceModel.Vibrate | lib/src/loupedeck/mod.rs:342-351 | A vibration is a fire-and-forget `SetVibration` command carrying the level's code in a binary frame masked with the zero key; the counter is unchanged. |
| DeviceModel.VibrateShortLowBytes | lib/src/loupedeck/mod.rs:342-351 | The ShortLow vibration is the frame `82 84 00 00 00 00 04 1b 01 32`. |
| DeviceModel.DrawBuffer | lib/src/loupedeck/mod.rs:363-393 | A wrongly sized buffer sends nothing. A well-sized one sends two frames: the `WriteFrameBuffer` command with the draw payload, then the `DrawOut` refresh of the screen, each a binary frame masked with the zero key. Both expect replies, so the counter advances by two. |
| DeviceModel.DrawBufferAsWritten | lib/src/loupedeck/mod.rs:363-393 | `draw_buffer` as written: it fails exactly when the `u16`-wrapped pixel byte count differs from the buffer length. Otherwise it advances the counter by two and sends two frames: the write command (action, the first id, the 10-byte draw header, the buffer) and then the refresh (action, the next id, the screen's id bytes), each behind the as-written prefix for its length. |
| DeviceModel.DrawBufferAgrees | lib/src/loupedeck/mod.rs:363-393 | The modelled `draw_buffer` equals the source's whenever twice the pixel count is below 2^16 and the 13 + n byte write command is outside 126..=255 bytes. |
| DeviceModel.DrawBufferAsWrittenWraps | lib/src/loupedeck/mod.rs:183 | The wrapped length byte is reachable through the public `draw_buffer`. A 10 x 6 region with a 120-byte buffer sends, as written, a frame with length byte 5 and no mask bit. The corrected model accepts the same call. |
| DeviceModel.DrawKey | lib/src/loupedeck/mod.rs:353-361 | Draws a 90 x 90 image on the centre screen at `(90*x, 90*y)` modulo 2^16. An image of the right size sends the write command carrying the draw header and image under the current id, then the refresh of the centre screen under the next id, each a binary frame masked with the zero key, and advances the counter by two. An image of the wrong size sends nothing. |
| Pixels.Rgb565 | lib/src/loupedeck/mod.rs:625-630 | Bits 15-11 hold the top five bits of red, bits 10-5 the top six of green, and bits 4-0 the top five of blue. |
| Pixels.Rgb565IgnoresAlpha | lib/src/loupedeck/mod.rs:625-630 | The alpha byte does not affect the result. |
| Pixels.Rgb565OfRgb888 | lib/src/loupedeck/mod.rs:625-630 | Every 16-bit colour is the conversion of an opaque pixel with the fields shifted back up. |
| Pixels.Rgb565Examples | lib/src/loupedeck/mod.rs:640-647 | Black, white, blue, red and green convert to 0, 0xffff, 0x001f, 0xf800 and 0x07e0. |
| Pixels.PixelBytesExamples | lib/src/loupedeck/mod.rs:649-703 | One-pixel red, green and blue targets become `00 f8`, `e0 07` and `1f 00`. |
| Pixels.ConvertDrawTarget | lib/src/loupedeck/mod.rs:610-623 | Two bytes per pixel, in pixel order, each pixel's 16-bit colour low byte first. |
| Pixels.ToHex | lib/src/loupedeck/mod.rs:195-201 | The dump is three characters per byte minus the final separator. |
| Pixels.HexRoundTrip | lib/src/loupedeck/mod.rs:195-201 | The dump reads back as the original bytes. |
| Registry.RegisterScreen | lib/src/controller/plugin.rs:44-53 | Afterwards the name maps to the given factory, replacing any earlier one. No other name changes and the call always succeeds. |
| Registry.RegisterScreenIgnoresOptions | lib/src/controller/plugin.rs:44-53 | The options passed with a registration make no difference. |
| Registry.ToLocalPlugin | lib/src/controller/plugin.rs:34-40 | The loaded plugin has the given id and exactly the registrar's screens. |
| Registry.RunRegisterLastWins | lib/src/controller/plugin.rs:50 | After a sequence of registrations, each name holds the factory of its last registration. Unregistered names keep what they had. |
| Registry.RunRegisterNames | lib/src/controller/plugin.rs:77-78 | A fresh registrar ends up with exactly the registered names. |
| Registry.LoadFromPath | lib/src/controller/plugin.rs:67-92 | Fails exactly when the compiler or core version differs, leaving the registry unchanged. On success the plugin's id maps to a plugin with exactly the registered screen names, replacing an earlier plugin of that id. No other entry changes. |
| Registry.LoadedScreens | lib/src/controller/plugin.rs:77-89 | After a successful load, each screen name of the plugin holds the factory of its last registration. |
| Controller.SetPage | lib/src/controller/mod.rs:163-167 | Stores the page under its name, replacing any page of that name. No other page, plugin or flag changes. |
| Controller.SetPageKeepsNames | lib/src/controller/mod.rs:163-167 | Every page stays stored under its own name. |
| Controller.GetPage | lib/src/controller/mod.rs:239-246 | Returns nothing exactly when no page has that name. |
| Controller.GetAfterSet | lib/src/controller/mod.rs:163-246 | Reading back a stored page gives it. Reading another name gives what it gave before. |
| Controller.GetPageNames | lib/src/controller/mod.rs:248-250 | Every stored name exactly once, in an unspecified order. |
| Controller.CreatePageInstance | lib/src/controller/mod.rs:116-161 | The instance keeps the configuration's name. It has an instance at a key exactly when there is an event emitter, the key is bound, and the bound plugin is loaded with that screen. The instance is made by that screen's factory for the centre screen at that key. |
| Controller.LoadResolves | lib/src/controller/plugin.rs:88-89 | Loading a plugin changes which bindings resolve only for that plugin's id. Those bindings then resolve exactly for its registered screens. |
| Controller.SetCurrentPage | lib/src/controller/mod.rs:97-114 | An unknown name sends nothing. A known name sends its page instance to the loop exactly when the controller has been started. |
| Controller.SetCurrentPageName | lib/src/controller/mod.rs:97-114 | The page sent carries the requested name. |
| Controller.GetConnectionStatus | lib/src/controller/mod.rs:89-95 | Disconnected exactly when there is no runtime, otherwise Connected. Never Connecting, and always Ok. |
| Controller.Start | lib/src/controller/mod.rs:169-182 | Creates the runtime, state and emitter, and leaves pages and plugins untouched. |
| Controller.StartConnects | lib/src/controller/mod.rs:89-95 | After `start` the status is Connected. |
| Controller.StartedPageInstances | lib/src/controller/mod.rs:97-161 | After `start`, a stored page is always sent, with an instance for exactly its resolvable bindings. |
| Controller.ListPlugins | lib/src/controller/mod.rs:252-265 | One identifier per pair of loaded plugin and registered screen, each exactly once, and nothing else. |
| Routing.Route | lib/src/controller/mod.rs:189-224 | A button press going down yields exactly one ShortLow vibration. A touch reaches the screen instance at `from_location(x, y)` exactly when a page is current and has one there. Every other event does nothing. |
| Routing.RouteAllAppend | lib/src/controller/mod.rs:190-224 | Events are routed in order, one at a time: routing a concatenation is routing each part in turn. |
| Routing.VibrationsArePresses | lib/src/controller/mod.rs:192-198 | The number of vibrations equals the number of button-down events, whatever the page. |
| Routing.NoPageNoTouches | lib/src/controller/mod.rs:200-201 | Before any page is current, no touch reaches a plugin. |
| Routing.TouchReachesBoundScreen | lib/src/controller/mod.rs:200-218 | A touch on a key of an instantiated page reaches the instance made from that key's binding exactly when the binding resolved. |
| Routing.LoopPassSeparates | lib/src/controller/mod.rs:189-234 | What a pass's events do does not depend on the pages queued during it. The page a non-empty queue leaves current is the last one queued, whatever the events and the page before. An empty queue keeps the current page. |
| Routing.SwitchAfterDrain | lib/src/controller/mod.rs:189-234 | A page switch queued during a pass affects only later passes. Events split over two passes see the old page throughout. |
| Editor.FindIndex | app/pages/Editor.tsx:156-161 | Returns -1 exactly when no entry has the location. Otherwise it returns the first entry with equal x and y. |
| Editor.Upsert | app/pages/Editor.tsx:154-168 | An existing location keeps the length; a new location is appended. Afterwards the locations are the old ones plus the key, and the new binding is present. Entries at other locations keep their place and value. |
| Editor.UpsertKeepsUnique | app/pages/Editor.tsx:156-163 | A list with at most one entry per location keeps that property. |
| Editor.UpsertTwice | app/pages/Editor.tsx:148-168 | Binding a key twice is the same as binding it once to the second value. |
| Editor.UpsertTwiceSingleEntry | app/pages/Editor.tsx:148-168 | Starting from a list without duplicate locations, two bindings of (0,0) leave exactly one entry there, holding the second value. |
| Editor.ToMapLookup | lib/src/controller/mod.rs:39-45 | The page's screen map, built from the pair list, has exactly the list's locations, each bound to its last entry. |
| Editor.UpsertAsMap | app/pages/Editor.tsx:163-168 | On a list without duplicate locations, an upsert then a save updates exactly that key of the controller's page map. |
| Editor.Label | app/pages/Editor.tsx:212-215 | The label is the id, the separator `" - "`, then the ref. |
| Editor.FindSeparator | app/pages/Editor.tsx:220 | Finds the first separator, as `split` scans for it. |
| Editor.Split | app/pages/Editor.tsx:220 | A string without a separator is one piece. Otherwise the first piece ends at the first separator. |
| Editor.DecodeLabel | app/pages/Editor.tsx:217-222 | The ref is undefined exactly when the label has no separator. Otherwise the id is the text before the first separator, and the ref is the next piece. |
| Editor.LabelRoundTrip | app/pages/Editor.tsx:212-221 | A label decodes back to its identifier exactly when neither field contains `" - "` and the id does not end in `" -"`. |
| Editor.LabelCounterexample | app/pages/Editor.tsx:212-221 | The identifier (`"clock -"`, `"face"`) decodes as (`"clock"`, `"- face"`). |
| Editor.SubmitDisabled | app/pages/Editor.tsx:77-78 | Submit is disabled exactly when the typed name is empty and the empty name is not a loaded page name. A non-empty name is always submittable. |
| Editor.NameWarningMeansOverwrite | app/pages/Editor.tsx:69-72 | Given the loaded list of page names, the toast appears exactly when a page of that name is stored, that is, exactly when adding the page would replace one instead of adding a name. |
| Editor.DuplicateNameSubmittable | app/pages/Editor.tsx:60-87 | A non-empty duplicate name is warned about, yet remains submittable. |
| Editor.SubmitDisabledIntended | app/pages/Editor.tsx:69-78 | The corrected guard: an empty name and the name of an existing page (the names the toast warns about) cannot be submitted. |
| Editor.SubmitGuardKeepsPages | app/pages/Editor.tsx:69-112 | Under the corrected guard, a submitted name is new and non-empty. Adding it keeps every existing page, bindings included, and adds just that name. |
| Editor.AddPage | app/pages/Editor.tsx:107-112 | Afterwards the name holds an empty page, whether or not it existed, and other names are unchanged. |
| Editor.AddPageDropsBindings | app/pages/Editor.tsx:107-112 | Re-adding an existing page drops all of its bindings. |

## Findings

| source | as written | input that shows it | evidently intended | confidence | as-written member | corrected member |
|---|---|---|---|---|---|---|
| lib/src/loupedeck/mod.rs:150-184 | The short prefix is used for bodies up to 0xff bytes, with length byte `0x80 + len as u8` | A 128-byte body: the length byte wraps to 0x00, so the frame reads as unmasked with an empty payload. A 126-byte body: the length byte announces a 16-bit extended length that is not there. | A websocket frame whose 7-bit length is at most 125, as section 5.2 of RFC 6455 requires; longer bodies use the extended form | medium, not executed | Payload.MessagePayloadAsWritten, Payload.AsWrittenCounterexample, DeviceModel.DrawBufferAsWrittenWraps | Payload.MessagePayload |
| lib/src/loupedeck/mod.rs:129 | `width * height * 2` is computed in `u16` | width 256, height 128 and an empty buffer: the product wraps to 0 and the buffer is accepted | Compare the full product with the buffer length | high, not executed | Payload.DrawBufferPayloadAsWritten, Payload.DrawBufferCounterexample | Payload.DrawBufferPayload |
| app/pages/Editor.tsx:78 | Submit is disabled only when the name is empty and the empty name is not a page: `!newPageName && !pageNames?.includes(newPageName)` | Typing `home` while a page `home` exists: the toast says the name exists, yet submit is enabled. Submitting replaces `home` with an empty page, dropping its bindings. | Disable submit for an empty name and for an existing name, the case the toast at app/pages/Editor.tsx:69-72 warns about | medium, not executed | Editor.SubmitDisabled, Editor.DuplicateNameSubmittable, Editor.AddPageDropsBindings | Editor.SubmitDisabledIntended, Editor.SubmitGuardKeepsPages |

In a debug build both expressions panic on overflow instead of wrapping. The model follows a release build. The rest of the model (`DeviceModel.Send`, `DeviceModel.SendMessage`, `DeviceModel.DrawBuffer`, `DeviceModel.DrawKey`, `Payload.ExternalMessageBytes`) uses the corrected framer and length check. `DeviceModel.SendAsWritten`, `DeviceModel.SendMessageAsWritten` and `DeviceModel.DrawBufferAsWritten` compose the same sends from the source's definitions. `DeviceModel.SendAgrees` and `DeviceModel.DrawBufferAgrees` prove the two match outside the inputs the findings name. The editor's page store, `Editor.AddPage`, is the same under either guard; the guard decides which names reach it.

## Behaviour worth noting

The model follows the code in these places, where a reader might expect otherwise.

- **Duplicate page names.** `set_page` overwrites a page of the same name. The editor only shows a toast (`Controller.SetPage`, `Editor.AddPageDropsBindings`).
- **Connection status.** `get_connection_status` reports only Connected or Disconnected, even though `DeviceConnectionStatus` also has a Connecting variant.
- **Button presses.** The device loop only vibrates on a press going down. Touches are the only events that reach plugins.
- **Transaction ids.** The counter is a `u8` that wraps after 255 (`DeviceModel.TxIdWrapsOntoUnsolicited`). Every fire-and-forget send uses id 1.
- **Persistence and errors.** Pages live in an in-memory map with no persistence. Operations on a controller that has not been started succeed silently. For example, `set_current_page` then sends nothing and returns `Ok`.
- **Plugin declaration.** `lib/src/loupedeck/plugin.rs` declares `PluginDeclaration` without a `plugin_id` and with a different `register_screen` signature. The model follows its caller in `lib/src/controller/plugin.rs`.

## Left out

- Serial I/O: the websocket upgrade handshake, the polling read/write loop, `connect`, `disconnect` and port enumeration. These are I/O on a serial port.
- The tokio runtime and the broadcast, mpsc and oneshot channels.
- The spawned task that matches replies to requests by tx id. It is concurrency; only `get_tx_id` and the counter are modelled.
- `get_info`. It only combines two replies that need the reply-matching task.
- `create_external_event_emitter` and its forwarding loop. The bytes it forwards are modelled by `Payload.ExternalMessageBytes`.
- Opening the plugin library and reading its declaration symbol. These are foreign calls; a plugin is given by its declaration, with its registrations listed in order.
- `KeyLocation::from_location`. It is not part of this model and is a parameter of the routing functions.
- The plugins' own behaviour (`on_touch`, factories). Factories and options are opaque handles, and a touch becomes an action.
- raqote drawing and text rendering. A draw target is its plain pixel array.
- Tauri commands, tray setup and all React rendering and hooks.
- Codec.ParseSerialMessage: the source's `Result<Option<Event>>` always holds `Some` on success, so the model drops the `Option` layer. The `from_utf8(..).unwrap()` panic on a non-UTF-8 serial number is not modelled. `trim` removes ASCII white space only.
- Codec.ParseEncode: states the round trip for every event except `VersionIn`, whose payload is already a formatted string. `Codec.ParseVersion` states that format instead.
- Payload.MessagePayload: the frame-decoding property is stated only for bodies shorter than 2^32 bytes. Beyond that, the source's `len as u32` truncates the length field, which the model computes but does not characterise.
- DeviceModel.Send: frames with the corrected framer, so for bodies of 126..=255 bytes it differs from the source, which writes a wrapped short length byte (`DeviceModel.SendAgrees` gives the range where they match). Its `FrameCarries` property holds only for bodies shorter than 2^32 bytes, for the reason above.
- DeviceModel.Send: assumes a connected device, as `Controller.Start` does. The source's `send` advances the counter (lib/src/loupedeck/mod.rs:468) and then unwraps the device's runtime and send channel (lib/src/loupedeck/mod.rs:471-472), so on an unconnected device it panics after taking an id; the model has no such failure.
- DeviceModel.SendMessage: differs from the source for 123..=252 data bytes, for the same reason as `DeviceModel.Send`.
- DeviceModel.DrawBuffer: differs from the source in two ways. It checks the full pixel byte count where the source wraps it to 16 bits. It frames write commands of 126..=255 bytes (buffers of 113..=242 bytes) with the corrected framer. `DeviceModel.DrawBufferAgrees` states where the two match. The property of the first frame is stated only for buffers shorter than 2^32 - 13 bytes.
- Payload.ExternalMessageBytes: uses the corrected framer. It differs from the source only for 123..=252 data bytes, which no caller builds: the only `ExternalMessage` in the source is the emitter's vibration, with one data byte.
- Controller.Start: assumes the device it is given is connected. The source's `start` builds the emitter with `create_external_event_emitter` (lib/src/controller/mod.rs:175), which unwraps the device's runtime and send channel (lib/src/loupedeck/mod.rs:270, 276). Both are `None` unless `connect` succeeded, and the application's startup ignores the result of `connect` (src-tauri/src/main.rs:113-116), so `start` on an unconnected device panics; the model has no such failure. The source assigns the emitter itself to the `Option` field at line 175; the model reads this as storing `Some(emitter)`, the only reading under which the field is later `is_some()`.
- Editor.Upsert: returns a new list. The source edits the array it got from React state in place, by assigning at the found index or one past the end, and hands the setter a new page object that holds that same array (app/pages/Editor.tsx:154-167). The previous state's array is therefore changed as well; this aliasing is not modelled.
- Controller.GetPageNames: the order of the names is left open, as a `HashMap` iteration order is.
- Controller.ListPlugins: the order of the identifiers is left open, as a `HashMap` iteration order is.
