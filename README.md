# useModal: the modal open/closed state hook

This project models `useModalStates`, the hook of the modal library. The hook
holds one boolean, `isOpen`, in a React state cell. Each render returns a
`UseModalReturn` record with `isOpen` and three callbacks:

- `onOpen` writes `true`.
- `onClose` writes `false`.
- `onToggle` writes the negation of `isOpen`.

React's `useState` is abstracted to one held cell. The setter writes the cell
(last write before the next render wins) and a render reads it. The toggle
callback closes over the `isOpen` of the render that created it. It does not
use a functional updater. So one hook instance has two pieces of state:

- `committed`: what the cell holds.
- `snapshot`: the `isOpen` that the last render returned.

Files:

- `useModal.dfy` (module `UseModal`) holds the datatypes, the open/closed
  machine `Next`, the pure event semantics `Step`/`Run`, and the class
  `ModalHook`. The class updates
  `committed` and `snapshot` in place. Each of its methods is tied to `Step`
  by its postcondition.
- `useModal_properties.dfy` (module `UseModalProperties`) holds what the hook
  promises, proved over `Run`. It also holds two reference definitions: the
  open/closed machine run over a sequence of callbacks (`MachineRun`) and the
  same hook written with a functional updater (`UpdaterStep`, `UpdaterRun`). Finally, a client
  method drives `ModalHook` through the usual scenarios.

With a functional updater (`setIsOpen(prev => !prev)`), several toggles
issued before a re-render would alternate. `lib/useModal.tsx:15` instead
negates the `isOpen` captured at render time, and this model follows the code.
`StaleToggle` proves what the code does. `BatchedToggleDiffersFromUpdater`
shows where the code and the functional-updater form part.
`SerializedAgreesWithUpdater` proves that they agree whenever each callback is
followed by a render. `SerializedFollowsMachine` proves that the code then
behaves as the open/closed machine.

## Model

| member | source | states |
|---|---|---|
| UseModal.UseModalStates | lib/useModal.tsx:10-22 | the record a render returns carries that render's `isOpen`, and its `onOpen`, `onClose` and `onToggle` write what the open/closed machine makes of that value: `true`, `false`, its negation |
| UseModal.Callback | lib/useModal.tsx:3-8 | a handler names one of the record's three callbacks, and on a record built as the hook builds it, that callback makes the machine's move from the record's `isOpen` |
| UseModal.Mount | lib/useModal.tsx:10-11 | the first render shows `initialState` (default `false`) and nothing is pending |
| UseModal.Observe | lib/useModal.tsx:11-22 | the caller's record exposes the last render's value, and every callback in it acts on that value, not on the cell |
| UseModal.Step | lib/useModal.tsx:11-15 | a callback writes the machine's move from the last render's `isOpen` into the cell and leaves the snapshot alone; a render copies the cell, leaving nothing pending |
| UseModal.Run | lib/useModal.tsx:11-15 | over any sequence of events, what the caller sees changes only at a render, and after a final render nothing is pending |
| UseModal.ModalHook.constructor | lib/useModal.tsx:10-11 | mounting seeds both the cell and the first render's `isOpen` with `initialState`, which defaults to `false` |
| UseModal.ModalHook.Render | lib/useModal.tsx:17-22 | a render leaves the cell alone, sets the snapshot to the cell, and returns the record built from it, whose `isOpen` is the cell's value |
| UseModal.ModalHook.OnOpen | lib/useModal.tsx:13 | `onOpen` sets the cell to `true` whatever it held and leaves the render's `isOpen` unchanged; it is the `Invoke(Open)` step |
| UseModal.ModalHook.OnClose | lib/useModal.tsx:14 | `onClose` sets the cell to `false` whatever it held and leaves the render's `isOpen` unchanged; it is the `Invoke(Close)` step |
| UseModal.ModalHook.OnToggle | lib/useModal.tsx:15 | `onToggle` sets the cell to the negation of the last render's `isOpen`, not of the cell; it is the `Invoke(Toggle)` step |
| UseModalProperties.ObserveShape | lib/useModal.tsx:3-8 | the returned record carries the snapshot as `isOpen`, and its callbacks pass `true`, `false` and the negation of that `isOpen` to the setter |
| UseModalProperties.StepFrame | lib/useModal.tsx:11-15 | a callback changes only the cell; a render only copies the cell into the snapshot |
| UseModalProperties.MountDefaultClosed | lib/useModal.tsx:10-11 | with no argument, the hook starts closed with nothing pending |
| UseModalProperties.MountShowsInitial | lib/useModal.tsx:10-11 | with argument `v`, the first render's `isOpen` is `v` and the cell agrees |
| UseModalProperties.LastWriteWins | lib/useModal.tsx:11-15 | callbacks issued with no render in between change nothing the caller sees, and the cell holds what the last of them wrote |
| UseModalProperties.OpenThenRender | lib/useModal.tsx:13 | after `onOpen` and a render, the modal is open with nothing pending, from any state |
| UseModalProperties.OpenIdempotent | lib/useModal.tsx:13 | `onOpen` twice gives the same state as `onOpen` once |
| UseModalProperties.CloseThenRender | lib/useModal.tsx:14 | after `onClose` and a render, the modal is closed with nothing pending, from any state |
| UseModalProperties.CloseIdempotent | lib/useModal.tsx:14 | `onClose` twice gives the same state as `onClose` once |
| UseModalProperties.ToggleThenRender | lib/useModal.tsx:15 | after `onToggle` and a render, the caller sees the negation of what it saw before |
| UseModalProperties.ToggleRoundTrip | lib/useModal.tsx:15 | toggle, render, toggle, render returns to the `isOpen` the caller saw, with nothing pending |
| UseModalProperties.StaleToggle | lib/useModal.tsx:11-15 | any number (at least one) of `onToggle` calls from the same render, with no render in between, show the negation of that render's `isOpen` once, not alternating flips |
| UseModalProperties.SerializedFollowsMachine | lib/useModal.tsx:13-15 | from a settled state, when every callback is followed by a render, the hook shows exactly the state of the open/closed machine (open lands open, close lands closed, toggle flips) |
| UseModalProperties.UpdaterBatchFollowsMachine | lib/useModal.tsx:15 | the reference functional-updater form applies the machine to the latest cell value even inside a batch; the code does not use this form |
| UseModalProperties.SerializedAgreesWithUpdater | lib/useModal.tsx:15 | from a settled state, when every callback is followed by a render, the code and the functional-updater form reach the same state |
| UseModalProperties.BatchedToggleDiffersFromUpdater | lib/useModal.tsx:15 | from a settled render, two toggles before the next render show the negation under the code and the original value under the functional-updater form |

## Left out

- `vite.config.ts` is left out. It is a declarative bundler configuration (entry point, ES output, `react` and `react/jsx-runtime` kept external) with no runtime logic.
- `lib/main.ts` is not part of this model. The build configuration names it as the entry point.
- The CSS injection plugin (`libInjectCss`) and the JSX runtime are left out. They hold no logic of the hook.
- React's internals (render scheduling, update batching, re-render notification, bailing out when the setter is given the current value) are abstracted. The setter writes the cell, and a render is an explicit event that copies the cell into the snapshot.
- Callbacks kept from renders older than the last one are not modelled. The caller is taken to invoke the callbacks of the latest render. For `onOpen` and `onClose` this changes nothing, since they write constants.
- The argument passed to `useModalStates` on renders after the first is not modelled. `useState` ignores it once the cell exists.
