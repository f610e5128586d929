/** The device loop that `start` spawns (lib/src/controller/mod.rs): each
    pass first drains the device's events, routing each against the current
    page, and only then applies the page switches queued by
    `set_current_page`. The loop's side effects become actions; the mapping
    from touch coordinates to a key, `KeyLocation::from_location`, is
    defined outside the model and is a parameter. */
module Routing {
  import opened Wrappers
  import opened Bytes
  import opened Constants
  import opened Controller

  /** What the loop does for one event: make the device vibrate, or hand a
      touch to the screen instance bound at the touched key. */
  datatype Action = Vibrate(level: Haptic) | OnTouch(instance: ScreenInstance, event: Event)

  /** The haptic level a button press asks for. */
  const PressHaptic := ShortLow

  /** The loop's `match` on one event. A button going down asks for a short,
      low vibration; a touch reaches the instance bound at its key, if a page
      is current and has one there; every other event is dropped. */
  function Route(current: Option<Page>, e: Event, locate: (u16, u16) -> KeyLocation): (r: seq<Action>)
    ensures |r| <= 1
    ensures (|r| == 1 && r[0].Vibrate?) <==> e.ButtonPressEvent? && e.dir == Down
    ensures |r| == 1 && r[0].Vibrate? ==> r[0].level == PressHaptic
    ensures (|r| == 1 && r[0].OnTouch?) <==>
              e.TouchEvent? && current.Some? && locate(e.x, e.y) in current.value.screen
    ensures |r| == 1 && r[0].OnTouch? ==>
              r[0].event == e && r[0].instance == current.value.screen[locate(e.x, e.y)]
  {
    match e
    case ButtonPressEvent(_, _, Down) => [Vibrate(PressHaptic)]
    case TouchEvent(_, _, _, x, y, _) =>
      if current.Some? && locate(x, y) in current.value.screen then
        [OnTouch(current.value.screen[locate(x, y)], e)]
      else []
    case _ => []
  }

  /** Routing a batch of events against one page, in order. */
  function RouteAll(current: Option<Page>, events: seq<Event>, locate: (u16, u16) -> KeyLocation): seq<Action>
    decreases |events|
  {
    if |events| == 0 then []
    else RouteAll(current, events[..|events| - 1], locate) + Route(current, events[|events| - 1], locate)
  }

  /** Routing two batches in turn is routing their concatenation. */
  lemma {:induction false} RouteAllAppend(current: Option<Page>, a: seq<Event>, b: seq<Event>, locate: (u16, u16) -> KeyLocation)
    ensures RouteAll(current, a + b, locate) == RouteAll(current, a, locate) + RouteAll(current, b, locate)
    decreases |b|
  {
    if |b| > 0 {
      assert (a + b)[..|a + b| - 1] == a + b[..|b| - 1];
      RouteAllAppend(current, a, b[..|b| - 1], locate);
    } else {
      assert a + b == a;
    }
  }

  /** The number of button-down events in a batch. */
  function CountPresses(events: seq<Event>): nat
    decreases |events|
  {
    if |events| == 0 then 0
    else
      var e := events[|events| - 1];
      CountPresses(events[..|events| - 1]) + (if e.ButtonPressEvent? && e.dir == Down then 1 else 0)
  }

  /** The number of vibrations among some actions. */
  function CountVibrations(actions: seq<Action>): nat
    decreases |actions|
  {
    if |actions| == 0 then 0
    else CountVibrations(actions[..|actions| - 1]) + (if actions[|actions| - 1].Vibrate? then 1 else 0)
  }

  lemma {:induction false} CountVibrationsAppend(a: seq<Action>, b: seq<Action>)
    ensures CountVibrations(a + b) == CountVibrations(a) + CountVibrations(b)
    decreases |b|
  {
    if |b| > 0 {
      assert (a + b)[..|a + b| - 1] == a + b[..|b| - 1];
      CountVibrationsAppend(a, b[..|b| - 1]);
    } else {
      assert a + b == a;
    }
  }

  /** Whatever the page, the device vibrates once per button going down and
      at no other time. */
  lemma {:induction false} VibrationsArePresses(current: Option<Page>, events: seq<Event>, locate: (u16, u16) -> KeyLocation)
    ensures CountVibrations(RouteAll(current, events, locate)) == CountPresses(events)
    decreases |events|
  {
    if |events| > 0 {
      var init := events[..|events| - 1];
      VibrationsArePresses(current, init, locate);
      CountVibrationsAppend(RouteAll(current, init, locate), Route(current, events[|events| - 1], locate));
    }
  }

  /** Without a current page no touch reaches a plugin: only vibrations
      remain. */
  lemma {:induction false} NoPageNoTouches(events: seq<Event>, locate: (u16, u16) -> KeyLocation)
    ensures forall k :: 0 <= k < |RouteAll(None, events, locate)| ==> RouteAll(None, events, locate)[k].Vibrate?
    decreases |events|
  {
    if |events| > 0 {
      NoPageNoTouches(events[..|events| - 1], locate);
    }
  }

  /** A touch on a key of the page made current reaches the instance created
      from that key's binding, exactly when the binding resolved. */
  lemma TouchReachesBoundScreen(c: Controller, name: string, e: Event, locate: (u16, u16) -> KeyLocation)
    requires name in c.pages && c.hasEmitter && e.TouchEvent?
    ensures var config := c.pages[name];
            var loc := locate(e.x, e.y);
            var routed := Route(Some(CreatePageInstance(c, config)), e, locate);
            && (loc in config.screen && Resolvable(c.registry, config.screen[loc]) ==>
                  routed == [OnTouch(ScreenInstance(FactoryOf(c.registry, config.screen[loc]), Center, loc), e)])
            && (!(loc in config.screen && Resolvable(c.registry, config.screen[loc])) ==> routed == [])
  {
  }

  /** The loop's state between passes, the page it routes against, and what
      one pass did. */
  datatype Pass = Pass(actions: seq<Action>, current: Option<Page>)

  /** One pass of the loop: every pending event is routed against the page
      current when the pass began; afterwards the queued pages are taken in
      order, so the last one becomes current. */
  function LoopPass(current: Option<Page>, events: seq<Event>, queued: seq<Page>, locate: (u16, u16) -> KeyLocation): Pass
  {
    var current' := if |queued| == 0 then current else Some(queued[|queued| - 1]);
    Pass(RouteAll(current, events, locate), current')
  }

  /** The two halves of a pass do not see each other: what the events do
      does not depend on the queued pages, and the page a non-empty queue
      leaves current depends neither on the events nor on the page before,
      only on the last page queued. */
  lemma LoopPassSeparates(current: Option<Page>, current': Option<Page>, events: seq<Event>, events': seq<Event>,
                          queued: seq<Page>, queued': seq<Page>, next: Page, locate: (u16, u16) -> KeyLocation)
    ensures LoopPass(current, events, queued, locate).actions == LoopPass(current, events, queued', locate).actions
    ensures LoopPass(current, events, queued + [next], locate).current
            == LoopPass(current', events', queued' + [next], locate).current == Some(next)
    ensures LoopPass(current, events, [], locate).current == current
  {
  }

  /** A page switch queued while events are pending reaches only the events
      of later passes: the events of this pass see the old page, even when
      they are split across two passes with no switch between them. */
  lemma SwitchAfterDrain(current: Option<Page>, a: seq<Event>, b: seq<Event>, next: Page, locate: (u16, u16) -> KeyLocation)
    ensures var first := LoopPass(current, a, [], locate);
            var second := LoopPass(first.current, b, [next], locate);
            && first.actions + second.actions == RouteAll(current, a + b, locate)
            && second.current == Some(next)
  {
    RouteAllAppend(current, a, b, locate);
  }
}
