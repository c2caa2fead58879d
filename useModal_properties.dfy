/** What the hook promises its callers, proved about the event semantics of
    module UseModal, and a client that drives the in-place hook through the
    same scenarios. */
module UseModalProperties {
  import opened UseModal

  /** Callbacks invoked one after another with no render in between. */
  function Invokes(hs: seq<Handler>): (es: seq<Event>)
    ensures |es| == |hs|
    ensures forall i :: 0 <= i < |hs| ==> es[i] == Invoke(hs[i])
  {
    if hs == [] then [] else [Invoke(hs[0])] + Invokes(hs[1..])
  }

  /** Callbacks each followed by a render of the component. */
  function Serialized(hs: seq<Handler>): (es: seq<Event>)
    ensures |es| == 2 * |hs|
  {
    if hs == [] then [] else [Invoke(hs[0]), Event.Render] + Serialized(hs[1..])
  }

  // ---------------------------------------------------------------------
  // Reference definitions: the open/closed machine the hook is meant to
  // implement, and the same hook written with a functional updater
  // (`setIsOpen(prev => !prev)`), which the code does not use.
  // ---------------------------------------------------------------------

  /** The open/closed machine (`Next`) run over a sequence of callbacks. */
  function MachineRun(isOpen: bool, hs: seq<Handler>): bool
    decreases |hs|
  {
    if hs == [] then isOpen else MachineRun(Next(isOpen, hs[0]), hs[1..])
  }

  /** A step of the functional-updater variant: a callback maps the latest
      value held by the cell, not the value of the last render. */
  function UpdaterStep(s: ModalState, e: Event): ModalState
  {
    match e
    case Invoke(h) => ModalState(Next(s.committed, h), s.snapshot)
    case Render => ModalState(s.committed, s.committed)
  }

  function UpdaterRun(s: ModalState, es: seq<Event>): ModalState
    decreases |es|
  {
    if es == [] then s else UpdaterRun(UpdaterStep(s, es[0]), es[1..])
  }

  // ---------------------------------------------------------------------
  // The returned record and the frame of each event
  // ---------------------------------------------------------------------

  /** The record exposes `isOpen` (the value of the last render) and the
      three callbacks: open writes true, close writes false, toggle writes
      the negation of that `isOpen`. */
  lemma ObserveShape(s: ModalState)
    ensures Observe(s).isOpen == s.snapshot
    ensures Callback(Observe(s), Open) == SetIsOpen(true)
    ensures Callback(Observe(s), Close) == SetIsOpen(false)
    ensures Callback(Observe(s), Toggle) == SetIsOpen(!Observe(s).isOpen)
  {
  }

  /** A callback touches only the cell and a render only the snapshot. */
  lemma StepFrame(s: ModalState, e: Event)
    ensures e.Invoke? ==> Step(s, e).snapshot == s.snapshot
    ensures e.Render? ==> Step(s, e) == ModalState(s.committed, s.committed)
  {
  }

  // ---------------------------------------------------------------------
  // Mounting
  // ---------------------------------------------------------------------

  /** With no argument the modal starts closed. */
  lemma MountDefaultClosed()
    ensures !Observe(Mount()).isOpen
    ensures Mount() == ModalState(false, false)
  {
  }

  /** With argument `v` the first render shows `v`, and nothing is pending. */
  lemma MountShowsInitial(v: bool)
    ensures Observe(Mount(v)).isOpen == v
    ensures Mount(v).committed == Mount(v).snapshot
  {
  }

  // ---------------------------------------------------------------------
  // Sequences of events
  // ---------------------------------------------------------------------

  /** Running two event sequences one after the other is running their concatenation. */
  lemma {:induction false} RunAppend(s: ModalState, a: seq<Event>, b: seq<Event>)
    ensures Run(s, a + b) == Run(Run(s, a), b)
    decreases |a|
  {
    if a == [] {
      assert a + b == b;
    } else {
      assert (a + b)[0] == a[0];
      assert (a + b)[1..] == a[1..] + b;
      RunAppend(Step(s, a[0]), a[1..], b);
    }
  }

  /** Between two renders the caller sees nothing change, and the cell holds
      what the last callback wrote: the setter is a plain value setter, so
      the last write before the next render wins. */
  lemma {:induction false} LastWriteWins(s: ModalState, hs: seq<Handler>)
    ensures Run(s, Invokes(hs)).snapshot == s.snapshot
    ensures Observe(Run(s, Invokes(hs))) == Observe(s)
    ensures hs != [] ==> Run(s, Invokes(hs)).committed == Callback(Observe(s), hs[|hs| - 1]).arg
    decreases |hs|
  {
    if hs != [] {
      var s' := Step(s, Invoke(hs[0]));
      assert Invokes(hs)[0] == Invoke(hs[0]);
      assert Invokes(hs)[1..] == Invokes(hs[1..]);
      LastWriteWins(s', hs[1..]);
      if |hs| > 1 {
        assert hs[1..][|hs[1..]| - 1] == hs[|hs| - 1];
      }
    }
  }

  // ---------------------------------------------------------------------
  // onOpen and onClose
  // ---------------------------------------------------------------------

  /** After onOpen and a render the modal is open, whatever came before. */
  lemma OpenThenRender(s: ModalState)
    ensures Observe(Run(s, [Invoke(Open), Event.Render])).isOpen
    ensures Run(s, [Invoke(Open), Event.Render]) == Mount(true)
  {
  }

  /** onOpen twice leaves the same state as onOpen once. */
  lemma OpenIdempotent(s: ModalState)
    ensures Run(s, [Invoke(Open), Invoke(Open)]) == Run(s, [Invoke(Open)])
  {
  }

  /** After onClose and a render the modal is closed, whatever came before. */
  lemma CloseThenRender(s: ModalState)
    ensures !Observe(Run(s, [Invoke(Close), Event.Render])).isOpen
    ensures Run(s, [Invoke(Close), Event.Render]) == Mount(false)
  {
  }

  /** onClose twice leaves the same state as onClose once. */
  lemma CloseIdempotent(s: ModalState)
    ensures Run(s, [Invoke(Close), Invoke(Close)]) == Run(s, [Invoke(Close)])
  {
  }

  // ---------------------------------------------------------------------
  // onToggle
  // ---------------------------------------------------------------------

  /** After onToggle and a render the caller sees the negation of what it saw
      before, even when other callbacks wrote the cell since that render. */
  lemma ToggleThenRender(s: ModalState)
    ensures Observe(Run(s, [Invoke(Toggle), Event.Render])).isOpen == !Observe(s).isOpen
  {
  }

  /** Toggle, render, toggle, render comes back to what the caller saw, with
      nothing pending. */
  lemma ToggleRoundTrip(s: ModalState)
    ensures Run(s, [Invoke(Toggle), Event.Render, Invoke(Toggle), Event.Render]) == Mount(s.snapshot)
  {
  }

  /** The stale snapshot: any number of onToggle calls issued from the same
      render, with no render in between, all write the negation of that
      render's `isOpen`, so the next render shows it negated once. */
  lemma {:induction false} StaleToggle(s: ModalState, n: nat)
    requires n >= 1
    ensures Observe(Run(s, Invokes(seq(n, _ => Toggle)) + [Event.Render])).isOpen == !Observe(s).isOpen
  {
    var hs := seq(n, _ => Toggle);
    RunAppend(s, Invokes(hs), [Event.Render]);
    LastWriteWins(s, hs);
  }

  // ---------------------------------------------------------------------
  // Against the reference definitions
  // ---------------------------------------------------------------------

  /** When every callback is followed by a render, the hook is the two-state
      machine: it shows the machine's state, with nothing pending. */
  lemma {:induction false} SerializedFollowsMachine(s: ModalState, hs: seq<Handler>)
    requires s.committed == s.snapshot
    ensures Run(s, Serialized(hs)) == Mount(MachineRun(s.snapshot, hs))
    decreases |hs|
  {
    if hs != [] {
      var two := [Invoke(hs[0]), Event.Render];
      assert Serialized(hs) == two + Serialized(hs[1..]);
      RunAppend(s, two, Serialized(hs[1..]));
      RunAppend(s, [Invoke(hs[0])], [Event.Render]);
      assert [Invoke(hs[0]), Event.Render] == [Invoke(hs[0])] + [Event.Render];
      SerializedFollowsMachine(Run(s, two), hs[1..]);
    }
  }

  /** The functional-updater variant runs the machine on the latest value even
      when callbacks are batched before a render. */
  lemma {:induction false} UpdaterBatchFollowsMachine(s: ModalState, hs: seq<Handler>)
    ensures UpdaterRun(s, Invokes(hs)) == ModalState(MachineRun(s.committed, hs), s.snapshot)
    decreases |hs|
  {
    if hs != [] {
      assert Invokes(hs)[0] == Invoke(hs[0]);
      assert Invokes(hs)[1..] == Invokes(hs[1..]);
      UpdaterBatchFollowsMachine(UpdaterStep(s, Invoke(hs[0])), hs[1..]);
    }
  }

  /** Running two event sequences one after the other under the
      functional-updater variant is running their concatenation. */
  lemma {:induction false} UpdaterRunAppend(s: ModalState, a: seq<Event>, b: seq<Event>)
    ensures UpdaterRun(s, a + b) == UpdaterRun(UpdaterRun(s, a), b)
    decreases |a|
  {
    if a == [] {
      assert a + b == b;
    } else {
      assert (a + b)[0] == a[0];
      assert (a + b)[1..] == a[1..] + b;
      UpdaterRunAppend(UpdaterStep(s, a[0]), a[1..], b);
    }
  }

  /** When every callback is followed by a render, the code and the
      functional-updater variant cannot be told apart. */
  lemma {:induction false} SerializedAgreesWithUpdater(s: ModalState, hs: seq<Handler>)
    requires s.committed == s.snapshot
    ensures Run(s, Serialized(hs)) == UpdaterRun(s, Serialized(hs))
    decreases |hs|
  {
    if hs != [] {
      var two := [Invoke(hs[0]), Event.Render];
      assert Serialized(hs) == two + Serialized(hs[1..]);
      RunAppend(s, two, Serialized(hs[1..]));
      UpdaterRunAppend(s, two, Serialized(hs[1..]));
      assert two == [Invoke(hs[0])] + [Event.Render];
      RunAppend(s, [Invoke(hs[0])], [Event.Render]);
      UpdaterRunAppend(s, [Invoke(hs[0])], [Event.Render]);
      assert Run(s, two) == UpdaterRun(s, two);
      SerializedAgreesWithUpdater(Run(s, two), hs[1..]);
    }
  }

  /** Batching is where the code and the functional-updater variant part:
      from a settled render, two toggles before the next render leave the
      code showing the negation, and the variant showing the original. */
  lemma BatchedToggleDiffersFromUpdater(s: ModalState)
    requires s.committed == s.snapshot
    ensures Observe(Run(s, [Invoke(Toggle), Invoke(Toggle), Event.Render])).isOpen == !s.snapshot
    ensures Observe(UpdaterRun(s, [Invoke(Toggle), Invoke(Toggle), Event.Render])).isOpen == s.snapshot
  {
  }

  // ---------------------------------------------------------------------
  // A client of the in-place hook
  // ---------------------------------------------------------------------

  method ClientScenarios()
  {
    // Mounted with no argument: closed.
    var m := new ModalHook();
    var r := m.Render();
    assert !r.isOpen;

    // Mounted open, then closed.
    m := new ModalHook(true);
    assert m.State() == Mount(true);
    m.OnClose();
    r := m.Render();
    assert !r.isOpen;

    // Mounted closed, toggled twice with a render after each toggle.
    m := new ModalHook(false);
    m.OnToggle();
    r := m.Render();
    assert r.isOpen;
    m.OnToggle();
    r := m.Render();
    assert !r.isOpen;

    // Mounted closed, opened twice.
    m := new ModalHook(false);
    m.OnOpen();
    m.OnOpen();
    r := m.Render();
    assert r.isOpen;

    // Mounted closed, toggled twice from the same render: still opens.
    m := new ModalHook(false);
    m.OnToggle();
    m.OnToggle();
    r := m.Render();
    assert r.isOpen;
  }
}
