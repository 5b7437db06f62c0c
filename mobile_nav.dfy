/**
  * The two panels of the phone layout, the sidebar and the notes list, and
  * the three operations that open one of them or close both.
  */
module MobileNav {
  /** The panel operations. */
  datatype NavAction = OpenSidebar | OpenNotesList | ClosePanels

  /** Which panels are open. */
  datatype Panels = Panels(sidebarOpen: bool, notesListOpen: bool)

  /** At most one panel is open. */
  predicate Exclusive(p: Panels) {
    !(p.sidebarOpen && p.notesListOpen)
  }

  /** The panels after an operation, whatever they were before. */
  function Step(p: Panels, a: NavAction): (r: Panels)
    ensures Exclusive(r)
    ensures r.sidebarOpen <==> a == OpenSidebar
    ensures r.notesListOpen <==> a == OpenNotesList
  {
    match a
    case OpenSidebar => Panels(true, false)
    case OpenNotesList => Panels(false, true)
    case ClosePanels => Panels(false, false)
  }

  /** The panels after a series of operations. */
  function Run(p: Panels, actions: seq<NavAction>): Panels
    decreases |actions|
  {
    if actions == [] then p else Run(Step(p, actions[0]), actions[1..])
  }

  /** Both panels start closed, and no series of operations opens both:
      after a non-empty one the state is that of its last operation. */
  lemma {:induction false} RunExclusive(p: Panels, actions: seq<NavAction>)
    requires Exclusive(p)
    ensures Exclusive(Run(p, actions))
    ensures actions != [] ==> Run(p, actions) == Step(p, actions[|actions| - 1])
    decreases |actions|
  {
    if actions != [] {
      RunExclusive(Step(p, actions[0]), actions[1..]);
      if |actions| > 1 {
        assert actions[1..][|actions[1..]| - 1] == actions[|actions| - 1];
      }
    }
  }

  /** Each operation is idempotent. */
  lemma StepIdempotent(p: Panels, a: NavAction)
    ensures Step(Step(p, a), a) == Step(p, a)
  {
  }

  /** The provider's state. */
  class MobileNavState {
    var isSidebarOpen: bool
    var isNotesListOpen: bool

    /** The two flags as a value. */
    function State(): Panels
      reads this
    {
      Panels(isSidebarOpen, isNotesListOpen)
    }

    constructor ()
      ensures !isSidebarOpen && !isNotesListOpen
      ensures Exclusive(State())
    {
      isSidebarOpen := false;
      isNotesListOpen := false;
    }

    method OpenSidebar()
      modifies this
      ensures State() == Step(old(State()), NavAction.OpenSidebar)
      ensures isSidebarOpen && !isNotesListOpen
    {
      isSidebarOpen := true;
      isNotesListOpen := false;
    }

    method OpenNotesList()
      modifies this
      ensures State() == Step(old(State()), NavAction.OpenNotesList)
      ensures isNotesListOpen && !isSidebarOpen
    {
      isNotesListOpen := true;
      isSidebarOpen := false;
    }

    method ClosePanels()
      modifies this
      ensures State() == Step(old(State()), NavAction.ClosePanels)
      ensures !isSidebarOpen && !isNotesListOpen
    {
      isSidebarOpen := false;
      isNotesListOpen := false;
    }
  }
}
