// The simulated touch screen: ten slots, changed by press, release and motion, each change sent as events.
module VirtualTouchscreens {
  import opened Common
  import opened TouchMotion
  import opened TouchProtocol

  const N_SLOTS_AVAILABLE: int := 10

  datatype Slot = Slot(active: bool, coord: Point)

  /** The contacts of the active slots from slot `s` on, in slot order, with the slot number as tracking id. */
  function ActiveFrom(slots: seq<Slot>, s: nat): seq<Contact>
    requires s <= |slots|
    decreases |slots| - s
  {
    if s == |slots| then []
    else (if slots[s].active then [Contact(slots[s].coord.x, slots[s].coord.y, s)] else []) + ActiveFrom(slots, s + 1)
  }

  function Active(slots: seq<Slot>): seq<Contact>
  {
    ActiveFrom(slots, 0)
  }

  predicate AnyActive(slots: seq<Slot>)
  {
    exists s :: 0 <= s < |slots| && slots[s].active
  }

  /** A contact list says exactly which slots are active and where they are. */
  lemma {:induction false} ActiveFromDescribes(slots: seq<Slot>, from: nat)
    requires from <= |slots|
    ensures forall c: Contact :: c in ActiveFrom(slots, from) <==>
              from <= c.id < |slots| && slots[c.id].active && slots[c.id].coord == Point(c.x, c.y)
    decreases |slots| - from
  {
    if from < |slots| {
      ActiveFromDescribes(slots, from + 1);
    }
  }

  lemma ActiveDescribes(slots: seq<Slot>)
    ensures forall c: Contact :: c in Active(slots) <==>
              0 <= c.id < |slots| && slots[c.id].active && slots[c.id].coord == Point(c.x, c.y)
    ensures Active(slots) == [] <==> !AnyActive(slots)
  {
    ActiveFromDescribes(slots, 0);
    if AnyActive(slots) {
      var s :| 0 <= s < |slots| && slots[s].active;
      assert Contact(slots[s].coord.x, slots[s].coord.y, s) in Active(slots);
    }
    assert Active(slots) == [] || Active(slots)[0] in Active(slots);
  }

  function Clamp(v: int, size: int): (r: int)
    ensures 0 <= v < size ==> r == v
  {
    var low := if v < 0 then 0 else v;
    if low > size - 1 then size - 1 else low
  }

  /** The nearest place on the screen: no other one is closer. */
  lemma ClampNearest(v: int, w: int, size: int)
    requires 0 <= w < size
    ensures 0 <= Clamp(v, size) < size && Abs(Clamp(v, size) - v) <= Abs(w - v)
  {
  }

  /** The frames of a motion: the moved slot at each point of the path, every other slot where it was. */
  function MoveFrames(slots: seq<Slot>, slot: int, path: seq<Point>): seq<Frame>
    requires 0 <= slot < |slots|
  {
    if path == [] then []
    else [Frame(Active(slots[slot := Slot(true, path[0])]), true)] + MoveFrames(slots, slot, path[1..])
  }

  ghost predicate Split(a: seq<Frame>, b: seq<Frame>, whole: seq<Frame>)
  {
    whole == a + b
  }

  lemma SplitStep(a: seq<Frame>, b: seq<Frame>, whole: seq<Frame>, x: Frame)
    requires Split(a, b, whole)
    ensures Split(a, b + [x], whole + [x])
  {
    assert a + b + [x] == a + (b + [x]);
  }

  lemma SplitShift(a: seq<Frame>, x: Frame, b: seq<Frame>, whole: seq<Frame>)
    requires Split(a, [x] + b, whole)
    ensures Split(a + [x], b, whole)
  {
    assert a + ([x] + b) == a + [x] + b;
  }

  lemma SplitDone(first: seq<Frame>, sent: seq<Frame>, whole: seq<Frame>, all: seq<Frame>)
    requires Split(first, sent, whole) && Split(sent, [], all)
    ensures whole == first + all
  {
    assert sent + [] == sent;
  }

  lemma PathAtTarget(slots: seq<Slot>, slot: int, target: Point)
    requires 0 <= slot < |slots|
    ensures MoveFrames(slots, slot, Path(target, target)) == []
  {
  }

  lemma MoveFramesUnfold(slots: seq<Slot>, slot: int, cur: Point, target: Point)
    requires 0 <= slot < |slots| && cur != target
    ensures var next := Step(cur, target);
            MoveFrames(slots, slot, Path(cur, target)) ==
            [Frame(Active(slots[slot := Slot(true, next)]), true)] + MoveFrames(slots, slot, Path(next, target))
  {
    var next := Step(cur, target);
    hide Step, Active;
    assert ([next] + Path(next, target))[1..] == Path(next, target);
  }

  lemma {:induction false} MoveFramesAt(slots: seq<Slot>, slot: int, path: seq<Point>)
    requires 0 <= slot < |slots|
    ensures |MoveFrames(slots, slot, path)| == |path|
    ensures forall i :: 0 <= i < |path| ==>
              MoveFrames(slots, slot, path)[i] == Frame(Active(slots[slot := Slot(true, path[i])]), true)
  {
    hide Active;
    if path != [] {
      MoveFramesAt(slots, slot, path[1..]);
    }
  }

  /** Two contact lists show the same fingers, at most `slot` having moved, and by no more than 10 pixels per axis. */
  ghost predicate SmoothChange(before: seq<Contact>, after: seq<Contact>, slot: int)
  {
    && (forall c <- before :: exists d <- after :: d.id == c.id)
    && (forall d <- after :: exists c <- before :: c.id == d.id)
    && forall c <- before, d <- after :: c.id == d.id ==>
         if c.id == slot then Near(Point(c.x, c.y), Point(d.x, d.y)) else c == d
  }

  lemma SlotMoved(slots: seq<Slot>, slot: int, p: Point, q: Point)
    requires 0 <= slot < |slots| && Near(p, q)
    ensures SmoothChange(Active(slots[slot := Slot(true, p)]), Active(slots[slot := Slot(true, q)]), slot)
  {
    hide Active;
    var s, t := slots[slot := Slot(true, p)], slots[slot := Slot(true, q)];
    ActiveDescribes(s);
    ActiveDescribes(t);
    forall c <- Active(s) ensures exists d <- Active(t) :: d.id == c.id {
      assert Contact(t[c.id].coord.x, t[c.id].coord.y, c.id) in Active(t);
    }
    forall d <- Active(t) ensures exists c <- Active(s) :: c.id == d.id {
      assert Contact(s[d.id].coord.x, s[d.id].coord.y, d.id) in Active(s);
    }
  }

  /**
   * A reader of a motion sees one finger glide to the clamped target: every frame shows the same fingers, only the moved
   * one changes place, never by more than 10 pixels per axis, and the last frame shows it on the target.
   */
  lemma MotionIsSmooth(slots: seq<Slot>, slot: int, target: Point, width: int, height: int)
    requires 0 <= slot < |slots| && slots[slot].active
    requires InBox(slots[slot].coord, width, height) && InBox(target, width, height)
    ensures var frames := [Frame(Active(slots), true)] + MoveFrames(slots, slot, Path(slots[slot].coord, target));
            && (forall i :: 0 <= i < |frames| - 1 ==> SmoothChange(frames[i].contacts, frames[i + 1].contacts, slot))
            && frames[|frames| - 1] == Frame(Active(slots[slot := Slot(true, target)]), true)
            && 6 * (|frames| - 1) <= Distance1(slots[slot].coord, target) + 6
  {
    hide Path, MoveFrames, Active, SmoothChange;
    var cur := slots[slot].coord;
    var path := [cur] + Path(cur, target);
    PathReachesTarget(cur, target, width, height);
    MoveFramesAt(slots, slot, Path(cur, target));
    var frames := [Frame(Active(slots), true)] + MoveFrames(slots, slot, Path(cur, target));
    assert slots[slot := Slot(true, cur)] == slots;
    assert forall i :: 0 <= i < |frames| ==> frames[i] == Frame(Active(slots[slot := Slot(true, path[i])]), true);
    forall i | 0 <= i < |frames| - 1 ensures SmoothChange(frames[i].contacts, frames[i + 1].contacts, slot) {
      SlotMoved(slots, slot, path[i], path[i + 1]);
    }
  }

  ghost predicate FrameInside(f: Frame, width: int, height: int)
  {
    && (f.contacts != [] ==> f.pressed)
    && forall c <- f.contacts :: InBox(Point(c.x, c.y), width, height)
  }

  /** The reader is between frames and has seen a legal stream so far. */
  ghost predicate AtRest(r: Reader)
  {
    r.legal && Idle(r) && r.contacts == []
  }

  lemma FrameRead(r: Reader, cs: seq<Contact>, button: seq<Event>)
    requires AtRest(r)
    requires button == [] || (button == [BtnTouch(true)] && !r.pressed)
    ensures var pressed := r.pressed || button != [];
            FeedAll(r, ContactListEvents(cs) + button + [MtReport] + [SynReport]) ==
            r.(pressed := pressed, frames := r.frames + [Frame(cs, pressed)])
  {
    FeedContacts(r, cs);
    FeedAppend(r, ContactListEvents(cs) + button + [MtReport], [SynReport]);
    FeedAppend(r, ContactListEvents(cs) + button, [MtReport]);
    FeedAppend(r, ContactListEvents(cs), button);
    hide ContactListEvents;
    assert r.contacts + cs == cs;
    var listed := r.(contacts := cs);
    FeedSingle(listed, BtnTouch(true));
    var pressed := if button == [] then listed else listed.(pressed := true);
    assert FeedAll(listed, button) == pressed;
    FeedSingle(pressed, MtReport);
    FeedSingle(pressed, SynReport);
  }

  lemma FeedSingle(r: Reader, e: Event)
    ensures FeedAll(r, [e]) == Feed(r, e)
  {
    assert [e] + [] == [e];
    FeedCons(r, e, []);
    assert FeedAll(Feed(r, e), []) == Feed(r, e);
  }

  /** After the last finger is lifted: the button goes up and an empty frame follows. */
  lemma ReleaseRead(r: Reader)
    requires AtRest(r) && r.pressed
    ensures FeedAll(r, [BtnTouch(false)] + [MtReport] + [SynReport]) ==
            r.(pressed := false, frames := r.frames + [Frame([], false)])
  {
    FeedAppend(r, [BtnTouch(false)] + [MtReport], [SynReport]);
    FeedAppend(r, [BtnTouch(false)], [MtReport]);
    FeedSingle(r, BtnTouch(false));
    var up := r.(pressed := false);
    FeedSingle(up, MtReport);
    FeedSingle(up, SynReport);
  }

  /** What the loop over the slots still has to send, before and after one slot. */
  lemma SlotEvents(slots: seq<Slot>, s: nat, sent: seq<Event>)
    requires s < |slots|
    ensures var p := slots[s].coord;
            sent + ContactListEvents(ActiveFrom(slots, s)) ==
            (if slots[s].active then sent + [AbsX(p.x)] + [AbsY(p.y)] + [TrackingId(s)] + [MtReport] else sent) +
            ContactListEvents(ActiveFrom(slots, s + 1))
  {
    var rest := ActiveFrom(slots, s + 1);
    if slots[s].active {
      var c := Contact(slots[s].coord.x, slots[s].coord.y, s);
      assert ([c] + rest)[1..] == rest;
      assert ContactListEvents([c] + rest) == ContactEvents(c) + ContactListEvents(rest);
      assert sent + ContactEvents(c) == sent + [AbsX(c.x)] + [AbsY(c.y)] + [TrackingId(s)] + [MtReport];
      Regroup(sent, ContactEvents(c), ContactListEvents(rest));
    } else {
      assert ActiveFrom(slots, s) == rest;
    }
  }

  lemma NoSlotEvents(slots: seq<Slot>, sent: seq<Event>)
    ensures sent + ContactListEvents(ActiveFrom(slots, |slots|)) == sent
  {
  }

  class VirtualTouchScreen {
    const slots: array<Slot>
    const screenWidth: int
    const screenHeight: int
    var events: seq<Event>

    /** What a reader of the whole event stream knows. */
    ghost function Read(): Reader
      reads this
    {
      FeedAll(START, events)
    }

    ghost predicate ValidSlots()
      reads this, slots
    {
      && slots.Length == N_SLOTS_AVAILABLE && 1 <= screenWidth && 1 <= screenHeight
      && forall s :: 0 <= s < slots.Length && slots[s].active ==> InBox(slots[s].coord, screenWidth, screenHeight)
    }

    /**
     * The stream is legal, every frame in it lies on the screen and shows contacts only while the button is down, and the
     * last frame shows exactly the active slots, with BTN_TOUCH down if and only if there is one.
     */
    ghost predicate Valid()
      reads this, slots
    {
      var r := Read();
      && ValidSlots()
      && AtRest(r)
      && (forall f <- r.frames :: FrameInside(f, screenWidth, screenHeight))
      && r.pressed == AnyActive(slots[..])
      && if r.frames == [] then !AnyActive(slots[..])
         else r.frames[|r.frames| - 1] == Frame(Active(slots[..]), AnyActive(slots[..]))
    }

    constructor (width: int, height: int)
      requires 1 <= width && 1 <= height
      ensures Valid() && fresh(slots) && events == [] && !AnyActive(slots[..])
      ensures screenWidth == width && screenHeight == height
    {
      slots := new Slot[N_SLOTS_AVAILABLE](_ => Slot(false, Point(0, 0)));
      screenWidth, screenHeight, events := width, height, [];
    }

    method SendTouchEvent()
      requires slots.Length == N_SLOTS_AVAILABLE
      modifies this`events
      ensures events == old(events) + ContactListEvents(Active(slots[..]))
    {
      hide ActiveFrom, ContactEvents, ContactListEvents;
      var s := 0;
      assert Active(slots[..]) == ActiveFrom(slots[..], 0);
      while s < N_SLOTS_AVAILABLE
        invariant 0 <= s <= N_SLOTS_AVAILABLE
        invariant events + ContactListEvents(ActiveFrom(slots[..], s)) == old(events) + ContactListEvents(Active(slots[..]))
      {
        SlotEvents(slots[..], s, events);
        if slots[s].active {
          events := events + [AbsX(slots[s].coord.x)];
          events := events + [AbsY(slots[s].coord.y)];
          events := events + [TrackingId(s)];
          events := events + [MtReport];
        }
        s := s + 1;
      }
      NoSlotEvents(slots[..], events);
    }

    /** The three calls that end every change without a button event: the contacts, SYN_MT_REPORT, SYN_REPORT. */
    method SendFrame()
      requires slots.Length == N_SLOTS_AVAILABLE && AtRest(Read())
      modifies this`events
      ensures Read() == old(Read()).(frames := old(Read()).frames + [Frame(Active(slots[..]), old(Read()).pressed)])
    {
      ghost var before, cs := events, Active(slots[..]);
      SendTouchEvent();
      events := events + [MtReport];
      events := events + [SynReport];
      assert events == before + (ContactListEvents(cs) + [] + [MtReport] + [SynReport]);
      FeedAppend(START, before, ContactListEvents(cs) + [] + [MtReport] + [SynReport]);
      FrameRead(FeedAll(START, before), cs, []);
    }

    method DownButton(slot: int, x: int, y: int)
      requires Valid()
      modifies this`events, slots
      ensures Valid()
      ensures var n := SlotIndex(slot);
              slots[..] == old(slots[..])[n := Slot(true, Point(Clamp(x, screenWidth), Clamp(y, screenHeight)))]
      ensures 0 <= slot < 10 && InBox(Point(x, y), screenWidth, screenHeight) ==> slots[slot] == Slot(true, Point(x, y))
      ensures Read().frames == old(Read().frames) + [Frame(Active(slots[..]), true)]
    {
      hide Active, FeedAll, Feed, ContactListEvents;
      var n := SlotIndex(slot);
      var firstTouchDown := forall s :: 0 <= s < slots.Length ==> !slots[s].active;
      ghost var r := Read();
      assert r.pressed == !firstTouchDown;
      slots[n] := Slot(true, Point(Clamp(x, screenWidth), Clamp(y, screenHeight)));
      assert AnyActive(slots[..]) by {
        assert slots[..][n].active;
      }
      ghost var before := events;
      SendTouchEvent();
      if firstTouchDown {
        events := events + [BtnTouch(true)];
      }
      events := events + [MtReport];
      events := events + [SynReport];
      ghost var cs, button := Active(slots[..]), if firstTouchDown then [BtnTouch(true)] else [];
      assert events == before + (ContactListEvents(cs) + button + [MtReport] + [SynReport]);
      FeedAppend(START, before, ContactListEvents(cs) + button + [MtReport] + [SynReport]);
      FrameRead(r, cs, button);
      ActiveDescribes(slots[..]);
    }

    method UpButton(slot: int) returns (ok: bool)
      requires Valid()
      modifies this`events, slots
      ensures Valid()
      ensures ok == old(slots[SlotIndex(slot)].active)
      ensures !ok ==> slots[..] == old(slots[..]) && events == old(events)
      ensures ok ==>
                && slots[..] == old(slots[..])[SlotIndex(slot) := Slot(false, old(slots[SlotIndex(slot)].coord))]
                && Read().frames == old(Read().frames) + [Frame(Active(slots[..]), true)] +
                                    if AnyActive(slots[..]) then [] else [Frame([], false)]
    {
      hide Active, FeedAll, Feed, ContactListEvents;
      var n := SlotIndex(slot);
      if !slots[n].active {
        return false;
      }
      ghost var r := Read();
      assert slots[..][n].active;
      slots[n] := Slot(false, slots[n].coord);
      SendFrame();
      ActiveDescribes(slots[..]);
      var lastTouchUp := forall s :: 0 <= s < slots.Length ==> !slots[s].active;
      assert lastTouchUp == !AnyActive(slots[..]);
      if lastTouchUp {
        ghost var middle := events;
        events := events + [BtnTouch(false)];
        events := events + [MtReport];
        events := events + [SynReport];
        assert events == middle + ([BtnTouch(false)] + [MtReport] + [SynReport]);
        FeedAppend(START, middle, [BtnTouch(false)] + [MtReport] + [SynReport]);
        ReleaseRead(FeedAll(START, middle));
      }
      return true;
    }

    /** Moves an active slot by (dx, dy), clamped to the screen, in a run of frames along `Path`. */
    method Move(slot: int, dx: int, dy: int) returns (ok: bool)
      requires Valid()
      modifies this`events, slots
      ensures Valid()
      ensures ok == old(slots[SlotIndex(slot)].active)
      ensures !ok ==> slots[..] == old(slots[..]) && events == old(events)
      ensures ok ==>
                var cur := old(slots[SlotIndex(slot)].coord);
                var target := Point(Clamp(cur.x + dx, screenWidth), Clamp(cur.y + dy, screenHeight));
                && slots[..] == old(slots[..])[SlotIndex(slot) := Slot(true, target)]
                && Read().frames == old(Read().frames) + MoveFrames(old(slots[..]), SlotIndex(slot), Path(cur, target))
      ensures ok && 0 <= slot < 10 ==>
                var target := Point(old(slots[slot].coord).x + dx, old(slots[slot].coord).y + dy);
                InBox(target, screenWidth, screenHeight) ==> slots[slot] == Slot(true, target)
    {
      hide Path, MoveFrames, Step, Active, FeedAll, Distance1;
      var n := SlotIndex(slot);
      if !slots[n].active {
        return false;
      }
      var tcoord := Point(Clamp(slots[n].coord.x + dx, screenWidth), Clamp(slots[n].coord.y + dy, screenHeight));
      ghost var start, first, sent := slots[..], Read().frames, [];
      ghost var all := MoveFrames(start, n, Path(slots[n].coord, tcoord));
      assert InBox(tcoord, screenWidth, screenHeight);
      PathAtTarget(start, n, tcoord);
      assert Split(first, sent, Read().frames) && Split(sent, all, all);
      hide Valid, Clamp, InBox, Split;
      while slots[n].coord != tcoord
        invariant Valid() && slots[n].active && slots[..] == start[n := slots[n]]
        invariant Split(sent, MoveFrames(start, n, Path(slots[n].coord, tcoord)), all)
        invariant Split(first, sent, Read().frames)
        decreases Distance1(slots[n].coord, tcoord)
      {
        ghost var cur, before := slots[n].coord, Read().frames;
        MoveFramesUnfold(start, n, cur, tcoord);
        StepOnce(n, tcoord);
        assert slots[..] == start[n := Slot(true, Step(cur, tcoord))];
        ghost var frame := Frame(Active(slots[..]), true);
        SplitStep(first, sent, before, frame);
        SplitShift(sent, frame, MoveFrames(start, n, Path(slots[n].coord, tcoord)), all);
        sent := sent + [frame];
      }
      SplitDone(first, sent, Read().frames, all);
      return true;
    }

    /** One iteration of the loop in `Move`: a step towards the target, sent as one frame. */
    method StepOnce(n: int, tcoord: Point)
      requires Valid() && 0 <= n < slots.Length && slots[n].active && slots[n].coord != tcoord
      requires InBox(tcoord, screenWidth, screenHeight)
      modifies this`events, slots
      ensures Valid()
      ensures slots[..] == old(slots[..])[n := Slot(true, Step(old(slots[n].coord), tcoord))]
      ensures Distance1(slots[n].coord, tcoord) < old(Distance1(slots[n].coord, tcoord))
      ensures Read().frames == old(Read().frames) + [Frame(Active(slots[..]), true)]
    {
      hide Active, FeedAll, Distance1, Step;
      var cur := slots[n].coord;
      StepProgress(cur, tcoord);
      ghost var r := Read();
      slots[n] := Slot(true, Step(cur, tcoord));
      assert slots[..][n].active;
      SendFrame();
      ActiveDescribes(slots[..]);
    }

    method MoveTo(slot: int, x: int, y: int) returns (ok: bool)
      requires Valid()
      modifies this`events, slots
      ensures Valid()
      ensures ok == old(slots[SlotIndex(slot)].active)
      ensures !ok ==> slots[..] == old(slots[..]) && events == old(events)
      ensures ok ==>
                var target := Point(Clamp(x, screenWidth), Clamp(y, screenHeight));
                && slots[..] == old(slots[..])[SlotIndex(slot) := Slot(true, target)]
                && Read().frames == old(Read().frames) +
                                    MoveFrames(old(slots[..]), SlotIndex(slot), Path(old(slots[SlotIndex(slot)].coord), target))
      ensures ok && 0 <= slot < 10 && InBox(Point(x, y), screenWidth, screenHeight) ==> slots[slot] == Slot(true, Point(x, y))
    {
      var n := SlotIndex(slot);
      if !slots[n].active {
        return false;
      }
      ok := Move(n, x - slots[n].coord.x, y - slots[n].coord.y);
    }
  }

  /** An out-of-range slot number stands for the last slot. */
  function SlotIndex(slot: int): (n: int)
    ensures 0 <= n < N_SLOTS_AVAILABLE == 10
    ensures 0 <= slot < 10 ==> n == slot
    ensures !(0 <= slot < 10) ==> n == 9
  {
    if slot < 0 || slot >= N_SLOTS_AVAILABLE then N_SLOTS_AVAILABLE - 1 else slot
  }
}
