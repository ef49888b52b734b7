/** The json-collapse element: a section with two boolean properties,
    `expand` and `freeze`, one transition (a toggle that emits a `change`
    event) reached from a click or from the Enter and Space keys, and
    a presentation that is a pure function of the two properties. */
module JsonCollapse {

  import opened Wrappers

  /** The observable state of one section: its two properties and the
      `detail.expand` values of the `change` events it has emitted so far. */
  datatype State = State(expand: bool, freeze: bool, events: seq<bool>)

  /** The state of a newly created section. */
  const Initial := State(false, false, [])

  /** The toggle: a frozen section ignores it; any other flips `expand` and
      emits one event carrying the new value. `freeze` is never written, and
      the event log only grows at its end, by one event exactly when the
      section is live. */
  function AfterClick(s: State): (r: State)
    ensures r.freeze == s.freeze
    ensures s.events <= r.events
    ensures |r.events| == |s.events| + (if s.freeze then 0 else 1)
  {
    if s.freeze then s else s.(expand := !s.expand, events := s.events + [!s.expand])
  }

  /** The keys the marker's keydown listener reacts to. */
  predicate IsActivationKey(key: string) {
    key == "Enter" || key == " "
  }

  /** The keydown listener: an activation key toggles, any other key does
      nothing. Either way `freeze` stays and at most one event is appended. */
  function AfterKey(s: State, key: string): (r: State)
    ensures r.freeze == s.freeze
    ensures s.events <= r.events
    ensures |s.events| <= |r.events| <= |s.events| + 1
  {
    if IsActivationKey(key) then AfterClick(s) else s
  }

  /** A frozen section never changes and never emits. */
  lemma FrozenIsFixed(s: State, key: string)
    requires s.freeze
    ensures AfterClick(s) == s && AfterKey(s, key) == s
  {
  }

  /** A toggle on a live section flips `expand`, leaves `freeze` alone and
      appends exactly one event, whose payload is the new `expand`. */
  lemma ClickEmitsOne(s: State)
    requires !s.freeze
    ensures AfterClick(s).expand == !s.expand && AfterClick(s).freeze == s.freeze
    ensures |AfterClick(s).events| == |s.events| + 1
    ensures AfterClick(s).events[..|s.events|] == s.events
    ensures AfterClick(s).events[|s.events|] == AfterClick(s).expand
  {
  }

  /** Two toggles restore `expand` and emit two events with opposite payloads. */
  lemma ClickTwice(s: State)
    requires !s.freeze
    ensures AfterClick(AfterClick(s)).expand == s.expand
    ensures AfterClick(AfterClick(s)).events == s.events + [!s.expand, s.expand]
  {
  }

  /** A keydown toggles exactly when its key is Enter or Space, and then it is
      exactly one toggle, never zero or two. */
  lemma KeyIsOneClick(s: State, key: string)
    ensures IsActivationKey(key) ==> AfterKey(s, key) == AfterClick(s)
    ensures !IsActivationKey(key) ==> AfterKey(s, key) == s
    ensures IsActivationKey(key) && !s.freeze ==> |AfterKey(s, key).events| == |s.events| + 1
    ensures AfterKey(s, key).freeze == s.freeze
  {
  }

  /** Which named slot the summary shows. */
  datatype Slot = Open | Close

  /** What `render` produces, leaving out the markup: the classes of the
      toggle row, whether the marker is hidden and rotated, the text of
      `aria-expanded`, the summary slot and whether the default (body) slot
      is rendered. */
  datatype Presentation = Presentation(
    toggleActive: bool,
    toggleFreeze: bool,
    markerHidden: bool,
    markerRotated: bool,
    ariaExpanded: string,
    summarySlot: Slot,
    bodyShown: bool)

  /** `String(b)` for a boolean. */
  function BoolString(b: bool): string {
    if b then "true" else "false"
  }

  /** Reads an `aria-expanded` value back. */
  function ParseBool(s: string): Option<bool> {
    if s == "true" then Some(true) else if s == "false" then Some(false) else None
  }

  /** The element's `render`: the close slot, the body, the active toggle
      class and the rotated marker exactly when expanded; the hidden marker
      and the frozen toggle class exactly when frozen. */
  function Render(expand: bool, freeze: bool): (r: Presentation)
    ensures r.summarySlot == Close <==> expand
    ensures r.bodyShown <==> expand
    ensures r.toggleActive <==> expand
    ensures r.markerRotated <==> expand
    ensures r.markerHidden <==> freeze
    ensures r.toggleFreeze <==> freeze
  {
    Presentation(
      toggleActive := expand,
      toggleFreeze := freeze,
      markerHidden := freeze,
      markerRotated := expand,
      ariaExpanded := BoolString(expand),
      summarySlot := if expand then Close else Open,
      bodyShown := expand)
  }

  /** The `aria-expanded` text reads back as `expand`. */
  lemma AriaExpandedReadsBack(expand: bool, freeze: bool)
    ensures ParseBool(Render(expand, freeze).ariaExpanded) == Some(expand)
  {
  }

  /** Different states never look the same. */
  lemma RenderInjective(e1: bool, f1: bool, e2: bool, f2: bool)
    ensures Render(e1, f1) == Render(e2, f2) <==> e1 == e2 && f1 == f2
  {
  }

  /** One json-collapse element. `freeze` is bound by the parent when the
      element is created and no method of the element writes it, so it is a
      constant of the object. */
  class Collapse {
    var expand: bool
    const freeze: bool
    ghost var events: seq<bool>

    ghost function Model(): State
      reads this
    {
      State(expand, freeze, events)
    }

    /** A section with both properties at their defaults. */
    constructor ()
      ensures Model() == Initial
    {
      expand, freeze, events := false, false, [];
    }

    /** A section whose parent binds `freeze` to true. */
    constructor Frozen()
      ensures Model() == Initial.(freeze := true)
    {
      expand, freeze, events := false, true, [];
    }

    /** `_handleClick`. */
    method HandleClick()
      modifies this`expand, this`events
      ensures Model() == AfterClick(old(Model()))
    {
      if freeze {
        return;
      }
      expand := !expand;
      events := events + [expand];
    }

    /** The click listener of the toggle row. */
    method Click()
      modifies this`expand, this`events
      ensures Model() == AfterClick(old(Model()))
    {
      HandleClick();
    }

    /** The keydown listener of the marker; the result says whether it called
        `preventDefault` on the event. */
    method KeyDown(key: string) returns (defaultPrevented: bool)
      modifies this`expand, this`events
      ensures defaultPrevented == IsActivationKey(key)
      ensures Model() == AfterKey(old(Model()), key)
    {
      defaultPrevented := false;
      if key == "Enter" || key == " " {
        defaultPrevented := true;
        HandleClick();
      }
    }
  }
}
