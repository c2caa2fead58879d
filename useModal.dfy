/** The modal open/closed state hook `useModalStates`.

    React's `useState` is abstracted to one held cell: a call to the setter
    writes the cell, and a render reads it. Between two renders every callback
    handed out by the last render still sees that render's `isOpen`, so the
    state of one hook instance is the pair
      - `committed`: the value the state cell holds (last write wins), and
      - `snapshot`:  the `isOpen` the last render returned.
 */
module UseModal {

  /** A callback of the returned record, as the closure `() => setIsOpen(arg)`:
      the setter is a plain value setter, so a callback is fully described by
      the value it passes. */
  datatype SetterCall = SetIsOpen(arg: bool)

  /** The record a render of the hook returns (the `UseModalReturn` interface). */
  datatype UseModalReturn = UseModalReturn(
    isOpen: bool,
    onOpen: SetterCall,
    onClose: SetterCall,
    onToggle: SetterCall)

  /** The three callbacks a caller can invoke. */
  datatype Handler = Open | Close | Toggle

  /** What the caller can do to a mounted hook: invoke a callback it got from
      the last render, or let the component re-render. */
  datatype Event = Invoke(handler: Handler) | Render

  /** The state of one mounted hook instance. */
  datatype ModalState = ModalState(committed: bool, snapshot: bool)

  /** The open/closed machine the hook stands for: open lands in Open, close
      in Closed, toggle flips the value it is applied to. */
  function Next(isOpen: bool, h: Handler): bool
  {
    match h
    case Open => true
    case Close => false
    case Toggle => !isOpen
  }

  /** The body of the hook for a render whose `useState` returned `isOpen`:
      the callbacks are closures over that value, so each writes what the
      machine would make of that render's value. */
  function UseModalStates(isOpen: bool): (r: UseModalReturn)
    ensures r.isOpen == isOpen
    ensures r.onOpen.arg == Next(isOpen, Open)
    ensures r.onClose.arg == Next(isOpen, Close)
    ensures r.onToggle.arg == Next(isOpen, Toggle)
  {
    UseModalReturn(
      isOpen,
      SetIsOpen(true),
      SetIsOpen(false),
      SetIsOpen(!isOpen))
  }

  /** The callback of a returned record that a handler names; when each of
      the record's callbacks makes the machine's move from its `isOpen`, so
      does the one named. */
  function Callback(r: UseModalReturn, h: Handler): (c: SetterCall)
    ensures c in {r.onOpen, r.onClose, r.onToggle}
    ensures (r.onOpen.arg == Next(r.isOpen, Open) && r.onClose.arg == Next(r.isOpen, Close)
             && r.onToggle.arg == Next(r.isOpen, Toggle)) ==> c.arg == Next(r.isOpen, h)
  {
    match h
    case Open => r.onOpen
    case Close => r.onClose
    case Toggle => r.onToggle
  }

  /** The first render: `useState(initialState)` seeds the cell, and the hook
      returns it. */
  function Mount(initialState: bool := false): (s: ModalState)
    ensures Observe(s).isOpen == initialState
    ensures s.committed == s.snapshot
  {
    ModalState(initialState, initialState)
  }

  /** What the caller holds: the record returned by the last render, whose
      callbacks all act on that render's value and not on the cell. */
  function Observe(s: ModalState): (r: UseModalReturn)
    ensures r.isOpen == s.snapshot
    ensures forall h :: Callback(r, h).arg == Next(s.snapshot, h)
  {
    UseModalStates(s.snapshot)
  }

  /** One event. A callback writes the value its closure captured at the last
      render; a render copies the cell into the snapshot. */
  function Step(s: ModalState, e: Event): (t: ModalState)
    ensures e.Invoke? ==> t.committed == Next(s.snapshot, e.handler) && t.snapshot == s.snapshot
    ensures e.Render? ==> t == Mount(s.committed)
  {
    match e
    case Invoke(h) => ModalState(Callback(Observe(s), h).arg, s.snapshot)
    case Render => ModalState(s.committed, s.committed)
  }

  /** A sequence of events, applied in order. What the caller sees changes
      only at a render, and after a final render nothing is pending. */
  function Run(s: ModalState, es: seq<Event>): (t: ModalState)
    ensures Event.Render !in es ==> t.snapshot == s.snapshot
    ensures es != [] && es[|es| - 1] == Event.Render ==> t.committed == t.snapshot
    decreases |es|
  {
    if es == [] then s else Run(Step(s, es[0]), es[1..])
  }

  /** One hook instance, updated in place by its callbacks and by renders. */
  class ModalHook {
    var committed: bool
    var snapshot: bool

    function State(): ModalState
      reads this
    {
      ModalState(committed, snapshot)
    }

    /** Mounting the component: `useState(initialState)` and the first render. */
    constructor (initialState: bool := false)
      ensures committed == initialState && snapshot == initialState
      ensures State() == Mount(initialState)
    {
      committed := initialState;
      snapshot := initialState;
    }

    /** A later render: `useState` ignores its argument and returns the cell. */
    method Render() returns (r: UseModalReturn)
      modifies this`snapshot
      ensures committed == old(committed) && snapshot == committed
      ensures State() == Step(old(State()), Event.Render)
      ensures r == Observe(State()) && r.isOpen == committed
    {
      snapshot := committed;
      r := UseModalStates(snapshot);
    }

    /** `onOpen`: always writes `true`. */
    method OnOpen()
      modifies this`committed
      ensures committed && snapshot == old(snapshot)
      ensures State() == Step(old(State()), Invoke(Handler.Open))
    {
      committed := true;
    }

    /** `onClose`: always writes `false`. */
    method OnClose()
      modifies this`committed
      ensures !committed && snapshot == old(snapshot)
      ensures State() == Step(old(State()), Invoke(Handler.Close))
    {
      committed := false;
    }

    /** `onToggle`: writes the negation of the `isOpen` of the last render,
        whatever was written since. */
    method OnToggle()
      modifies this`committed
      ensures committed == !snapshot && snapshot == old(snapshot)
      ensures State() == Step(old(State()), Invoke(Handler.Toggle))
    {
      committed := !snapshot;
    }
  }
}
