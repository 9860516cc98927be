// Events of a multi-touch device, and a reader for them: the type A protocol of the Linux kernel's
// multi-touch documentation ("Protocol Example A"). Contacts are separated by SYN_MT_REPORT, frames by SYN_REPORT.
module TouchProtocol {
  import opened Common

  datatype Event = AbsX(x: int) | AbsY(y: int) | TrackingId(id: int) | MtReport | SynReport | BtnTouch(down: bool)

  datatype Contact = Contact(x: int, y: int, id: int)

  /** What a reader knows after one SYN_REPORT: the fingers on the screen and the state of BTN_TOUCH. */
  datatype Frame = Frame(contacts: seq<Contact>, pressed: bool)

  datatype Reader = Reader(
    x: Option<int>, y: Option<int>, id: Option<int>,
    contacts: seq<Contact>, pressed: bool, frames: seq<Frame>, legal: bool)

  const START: Reader := Reader(None, None, None, [], false, [], true)

  /**
   * One event. The stream stops being legal on a half-described contact, on a SYN_REPORT amid a contact, and on a
   * BTN_TOUCH event that does not change the button.
   */
  function Feed(r: Reader, e: Event): Reader
  {
    match e
    case AbsX(v) => r.(x := Some(v), legal := r.legal && r.x.None?)
    case AbsY(v) => r.(y := Some(v), legal := r.legal && r.y.None?)
    case TrackingId(v) => r.(id := Some(v), legal := r.legal && r.id.None?)
    case MtReport =>
      if r.x.Some? && r.y.Some? && r.id.Some? then
        r.(x := None, y := None, id := None, contacts := r.contacts + [Contact(r.x.value, r.y.value, r.id.value)])
      else
        r.(legal := r.legal && Idle(r))
    case SynReport => r.(contacts := [], frames := r.frames + [Frame(r.contacts, r.pressed)], legal := r.legal && Idle(r))
    case BtnTouch(down) => r.(pressed := down, legal := r.legal && r.pressed != down)
  }

  predicate Idle(r: Reader)
  {
    r.x.None? && r.y.None? && r.id.None?
  }

  function FeedAll(r: Reader, events: seq<Event>): Reader
    decreases |events|
  {
    if events == [] then r else FeedAll(Feed(r, events[0]), events[1..])
  }

  lemma {:induction false} FeedAppend(r: Reader, a: seq<Event>, b: seq<Event>)
    ensures FeedAll(r, a + b) == FeedAll(FeedAll(r, a), b)
    decreases |a|
  {
    hide Feed;
    if a == [] {
      assert a + b == b;
    } else {
      assert (a + b)[1..] == a[1..] + b;
      FeedAppend(Feed(r, a[0]), a[1..], b);
    }
  }

  /** One contact as the device writes it. */
  function ContactEvents(c: Contact): seq<Event>
  {
    [AbsX(c.x), AbsY(c.y), TrackingId(c.id), MtReport]
  }

  function ContactListEvents(cs: seq<Contact>): seq<Event>
  {
    if cs == [] then [] else ContactEvents(cs[0]) + ContactListEvents(cs[1..])
  }

  lemma FeedCons(r: Reader, e: Event, rest: seq<Event>)
    ensures FeedAll(r, [e] + rest) == FeedAll(Feed(r, e), rest)
  {
    hide Feed;
    assert ([e] + rest)[1..] == rest;
  }

  lemma FeedContact(r: Reader, c: Contact)
    requires r.legal && Idle(r)
    ensures FeedAll(r, ContactEvents(c)) == r.(contacts := r.contacts + [c])
  {
    var r1 := Feed(r, AbsX(c.x));
    var r2 := Feed(r1, AbsY(c.y));
    var r3 := Feed(r2, TrackingId(c.id));
    FeedCons(r3, MtReport, []);
    FeedCons(r2, TrackingId(c.id), [MtReport]);
    FeedCons(r1, AbsY(c.y), [TrackingId(c.id)] + [MtReport]);
    FeedCons(r, AbsX(c.x), [AbsY(c.y)] + ([TrackingId(c.id)] + [MtReport]));
    assert ContactEvents(c) == [AbsX(c.x)] + ([AbsY(c.y)] + ([TrackingId(c.id)] + [MtReport]));
    assert [MtReport] + [] == [MtReport];
  }

  /** A legal contact list is read back as it was written. */
  lemma {:induction false} FeedContacts(r: Reader, cs: seq<Contact>)
    requires r.legal && Idle(r)
    ensures FeedAll(r, ContactListEvents(cs)) == r.(contacts := r.contacts + cs)
    decreases |cs|
  {
    if cs == [] {
      assert r.contacts + cs == r.contacts;
    } else {
      FeedAppend(r, ContactEvents(cs[0]), ContactListEvents(cs[1..]));
      FeedContact(r, cs[0]);
      var r1 := r.(contacts := r.contacts + [cs[0]]);
      FeedContacts(r1, cs[1..]);
      assert r1.contacts + cs[1..] == r.contacts + cs;
    }
  }
}
