# Toasts, responsive modifiers and table layout

A Dafny model of three parts of a Yew/PatternFly component library:

- **Toasts** (`toast.dfy`, `toast_schedule.dfy`). The `Toaster` agent keeps the set of
  connected viewers. It hands each toast to one of them, or raises a browser alert when
  none is connected. The `ToastViewer` component appends each toast as an entry with a
  fresh id. When the toast has a timeout, its expiry goes into a min-heap of deadlines.
  The viewer drives a single timer from that heap. When the timer fires, the viewer
  re-arms it and drops every entry whose expiry is no longer in the future. Time is an
  explicit parameter `now`, in whole milliseconds.
- **Responsive modifiers** (`breakpoint.dfy`). A modifier applies from a breakpoint on and
  is rendered as its class name plus the breakpoint's suffix (`grow` on `Large`
  renders as `grow-on-lg`). The model covers the shorthands, `map`/`mapped`, the
  `From` conversions and the class lists.
- **Table layout** (`table.dfy`). It covers the table's class list and which modes are
  expandable. It gives the cells of a data row, and the column spans of an expanded
  entry's detail row. The detail cells are emitted until the remaining column budget is
  used up, and a filler cell covers whatever is left. It also covers the toggle
  button's `aria-expanded` value and its callback.

The viewer and the agent are classes whose methods update their fields.
- The viewer's heap is a field holding an ascending `seq<int>`. Pushing inserts in
  order, and popping takes the head.
- The armed timer is the deadline it was armed for.
- Each method is tied to a pure specification function of `ToastSchedule` (`Trigger`,
  `Schedule`, `Arm`) or to `Retain`. The properties are proved about those functions.
- The invariants are `Valid` and `Covered`:
  - `Valid`: the heap is ordered, an unarmed viewer has nothing pending, and ids are
    strictly increasing and below the counter.
  - `Covered`: every live timed entry still has its deadline armed or pending.

The table's class list, data row and detail row are built by methods that push in the
source's order. They are proved equal to specification functions, and lemmas state what
those lists contain.

## Model

| member | source | states |
|---|---|---|
| ToastSchedule.Push | src/toast/mod.rs:297 | pushing a deadline keeps the heap ordered and adds exactly that deadline to the pending multiset |
| ToastSchedule.PopIsEarliest | src/toast/mod.rs:309 | the instant popped from the heap is no later than any pending instant |
| ToastSchedule.FirstFuture | src/toast/mod.rs:309-323 | the number of popped-and-dropped deadlines: all of them are past, and the next one (if any) is not |
| ToastSchedule.Arm | src/toast/mod.rs:309-323 | re-arming from the heap: nothing armed only when every deadline was past and the heap ends empty; the armed deadline is not past and came from the heap; every deadline at or after `now` is kept with its multiplicity, armed or pending; only past deadlines are dropped; the rest stays ordered and no earlier than the armed one |
| ToastSchedule.Trigger | src/toast/mod.rs:301-324 | an armed timer is left alone with its heap; otherwise the heap is re-armed; afterwards an unarmed scheduler has nothing pending |
| ToastSchedule.Schedule | src/toast/mod.rs:294-299 | scheduling keeps the heap ordered; with a timer already armed it keeps that timer and only adds the deadline to the heap |
| ToastSchedule.ScheduleKeepsPending | src/toast/mod.rs:294-324 | scheduling a deadline that is not past makes it pending, loses no pending instant, and arms it directly when nothing was armed |
| ToastSchedule.RearmKeepsFuture | src/toast/mod.rs:330-332 | after a timer that fired on time, re-arming keeps every instant after `now` armed or pending |
| Toast.FromTitle | src/toast/mod.rs:72-82 | a toast with the message as title, no timeout, an empty body, the default type and no actions; its promise is stated by `FromTitlePersists` |
| Toast.Expiry | src/toast/mod.rs:265-269 | the expiry: `now` plus the timeout when it converts, otherwise none; its promise is stated by `AddedEntryShape` |
| Toast.AlertOf | src/toast/mod.rs:274-285 | the alert with the toast's type, title, actions and body, and a close callback for the id only without a timeout; stated by `AddedEntryShape` |
| Toast.NotId | src/toast/mod.rs:327 | the test of `remove_toast`; its effect is stated by `RemoveAtMostOne` and `RemoveTwice` |
| Toast.Unexpired | src/toast/mod.rs:336-342 | the test of `cleanup`; its effect is stated by `ReapExactlyExpired` |
| Toast.FromStd | src/toast/mod.rs:268 | the conversion succeeds exactly for durations up to `i64::MAX` milliseconds, and keeps the value |
| Toast.AddedEntryShape | src/toast/mod.rs:264-287 | the expiry is `now` plus the timeout exactly when the timeout converts; the alert gets a close callback for its id exactly when the toast has no timeout; title and actions pass through |
| Toast.FromTitlePersists | src/toast/mod.rs:72-82 | a toast made from a bare message carries that title, never expires and can be closed by hand |
| Toast.Retain | src/toast/mod.rs:350 | an entry is kept exactly when it was there and passes the test; the list does not grow |
| Toast.RetainSameLength | src/toast/mod.rs:349-351 | the length is unchanged exactly when every entry passes, and then the list is unchanged |
| Toast.RetainConcat | src/toast/mod.rs:350 | retaining distributes over concatenation, so the kept entries keep their order |
| Toast.RetainIdempotent | src/toast/mod.rs:350 | retaining twice with one test equals retaining once |
| Toast.RetainCommutes | src/toast/mod.rs:326-343 | closing an entry and reaping expired entries give the same list in either order |
| Toast.RetainIdsIncreasing | src/toast/mod.rs:350 | retaining keeps entry ids strictly increasing |
| Toast.RemoveAtMostOne | src/toast/mod.rs:326-328 | with unique increasing ids, closing by id removes at most one entry, and removes one exactly when the id is present |
| Toast.ReapKeepsPending | src/toast/mod.rs:330-343 | after an on-time fire, re-arming at one clock read and reaping at a later one leave every surviving timed entry with its deadline armed or pending |
| Toast.AppendIdsIncreasing | src/toast/mod.rs:271-287 | appending an entry whose id is above every present one keeps the ids strictly increasing |
| Toast.AppendKeepsPending | src/toast/mod.rs:279-291 | appending an entry and scheduling its expiry keeps every timed entry armed or pending, provided the expiry is not past at the trigger's clock read |
| Toast.LateArmDropsDeadline | src/toast/mod.rs:265-277 | when the trigger's clock read is already past a new toast's expiry and nothing else is pending, no timer is armed and the toast has no close callback |
| Toast.OversizedTimeoutStays | src/toast/mod.rs:266-277 | a toast whose timeout exceeds `i64::MAX` milliseconds gets no expiry and no close callback, and survives every cleanup |
| Toast.RemoveTwice | src/toast/mod.rs:326-328 | closing the same id twice equals closing it once |
| Toast.ReapExactlyExpired | src/toast/mod.rs:336-342 | an untimed entry survives every cleanup; a timed one survives exactly while its expiry is after `now` |
| Toast.DropMessage | src/toast/mod.rs:145-149 | the alert text for a dropped toast ends with the toast's title |
| Toast.ToastViewer.constructor | src/toast/mod.rs:213-224 | a new viewer has no entries, counter 0, no timer and an empty heap, and satisfies both invariants |
| Toast.ToastViewer.TriggerNextCleanup | src/toast/mod.rs:301-324 | the popping loop leaves the scheduler exactly as `Trigger` says |
| Toast.ToastViewer.ScheduleCleanup | src/toast/mod.rs:294-299 | the new scheduler state is `Schedule` of the old one |
| Toast.ToastViewer.AddToast | src/toast/mod.rs:264-292 | the entry with id `counter`, its alert and its expiry (from the first clock read) is appended; the counter grows by one; the expiry (if any) is scheduled with the trigger's own clock read; the invariants hold and an armed timer stays armed; coverage is kept unless that second read is already past the expiry |
| Toast.ToastViewer.RetainAlert | src/toast/mod.rs:345-352 | the entries become `Retain` of the old ones; the result says whether some entry failed the test |
| Toast.ToastViewer.RemoveToast | src/toast/mod.rs:326-328 | the entry with the id is removed; the result is true exactly when it was present; at most one entry goes; coverage is kept |
| Toast.ToastViewer.Cleanup | src/toast/mod.rs:330-343 | the timer is re-armed from the old heap at the trigger's clock read; exactly the entries expired at the later read are dropped; the result is true exactly when one was; the invariants hold; after an on-time fire, coverage is kept |
| Toast.Toaster.constructor | src/toast/mod.rs:109-114 | an agent starts with no viewer |
| Toast.Toaster.Connected | src/toast/mod.rs:118-122 | a respondable handler is added to the viewers; any other handler is ignored |
| Toast.Toaster.Disconnected | src/toast/mod.rs:132-136 | a respondable handler is removed from the viewers; any other handler is ignored |
| Toast.Toaster.ShowToast | src/toast/mod.rs:140-152 | with a viewer, the toast is sent to one registered, respondable viewer; with none, it is dropped with the alert text for its title |
| Breakpoints.Suffix | src/utils/breakpoint.rs:64-76 | the six suffixes; their promise is stated by `SuffixInjective` |
| Breakpoints.Map | src/utils/breakpoint.rs:34-43 | `map`; stated by `MapLaws` and `RenderMap` |
| Breakpoints.On | src/utils/breakpoint.rs:109-114 | `on`; stated by `ShorthandsRender` and `RenderDistinguishesBreakpoints` |
| Breakpoints.All | src/utils/breakpoint.rs:84-86 | `all`; stated by `ShorthandsRender` |
| Breakpoints.Sm | src/utils/breakpoint.rs:88-90 | `sm`; stated by `ShorthandsRender` |
| Breakpoints.Md | src/utils/breakpoint.rs:91-93 | `md`; stated by `ShorthandsRender` |
| Breakpoints.Lg | src/utils/breakpoint.rs:94-96 | `lg`; stated by `ShorthandsRender` |
| Breakpoints.Xl | src/utils/breakpoint.rs:97-99 | `xl`; stated by `ShorthandsRender` |
| Breakpoints.Xxl | src/utils/breakpoint.rs:100-102 | `xxl`; stated by `ShorthandsRender` |
| Breakpoints.Render | src/utils/breakpoint.rs:117-124 | the class name of a modifier; stated by `RenderSplits` and `ShorthandsRender` |
| Breakpoints.Mapped | src/utils/breakpoint.rs:55-61 | `mapped`; stated by `MappedLaws` and `AsClassesMapped` |
| Breakpoints.FromModifier | src/utils/breakpoint.rs:165-175 | the modifier at every size; stated by `ShorthandsRender` |
| Breakpoints.FromItem | src/utils/breakpoint.rs:177-184 | the one-item list; stated by `SingleClasses` |
| Breakpoints.FromModifiers | src/utils/breakpoint.rs:186-193 | the one-item list of the modifier at every size; stated by `SingleClasses` |
| Breakpoints.IntoClasses | src/utils/breakpoint.rs:126-133 | the one class of a modifier; stated by `SingleClasses` |
| Breakpoints.SuffixInjective | src/utils/breakpoint.rs:64-76 | each breakpoint has its own suffix, only `None` has the empty one, and every other suffix starts with "-on-" |
| Breakpoints.MapLaws | src/utils/breakpoint.rs:34-43 | `map` keeps the breakpoint and obeys the identity and composition laws |
| Breakpoints.ShorthandsRender | src/utils/breakpoint.rs:84-124 | what `all`, `sm`, `md`, `lg`, `xl`, `xxl` and the plain conversion render to |
| Breakpoints.RenderSplits | src/utils/breakpoint.rs:117-124 | a rendered modifier is the modifier's string followed by the breakpoint suffix |
| Breakpoints.RenderDistinguishesBreakpoints | src/utils/breakpoint.rs:109-124 | one modifier on two breakpoints renders the same class name only when the breakpoints are equal |
| Breakpoints.RenderMap | src/utils/breakpoint.rs:34-43 | rendering a mapped modifier equals rendering the original through the mapping |
| Breakpoints.MapEach | src/utils/breakpoint.rs:60 | mapping every item keeps the length, and each item is the mapped original at its position |
| Breakpoints.MappedLaws | src/utils/breakpoint.rs:55-61 | `mapped` keeps length, order and breakpoints, maps each modifier, and obeys the identity and composition laws |
| Breakpoints.AsClasses | src/utils/breakpoint.rs:135-152 | one class name per item, in order, each the item's rendering |
| Breakpoints.SingleClasses | src/utils/breakpoint.rs:126-193 | the single-item conversions give the one-element class lists |
| Breakpoints.AsClassesConcat | src/utils/breakpoint.rs:135-142 | the class list of a concatenation is the concatenation of the class lists |
| Breakpoints.AsClassesMapped | src/utils/breakpoint.rs:55-61 | the class list of a mapped list is the original's rendered through the mapping |
| TableNext.IsExpandable | src/components/table/next/mod.rs:107-116 | `is_expandable`; stated by `ExpandableModes` |
| TableNext.Sticky | src/components/table/next/mod.rs:62-66 | a header that is sticky; no header is not; used by `TableClass` |
| TableNext.ModeClasses | src/components/table/next/mod.rs:72-86 | the classes each mode pushes; stated by `ModeClassNames` |
| TableNext.TableClassList | src/components/table/next/mod.rs:60-90 | the table's class list in push order; stated by `TableClassLayout` and `TableClassNames` |
| TableNext.DataCell | src/components/table/next/mod.rs:286-300 | a column's cell with its label (empty when none) as `data-label`; stated by `RenderRow` |
| TableNext.Emitted | src/components/table/next/mod.rs:215-235 | how many detail cells are emitted: at most all, at least one when there are any; stated further by `EmittedStops` and `EmittedUnique` |
| TableNext.Fit | src/components/table/next/mod.rs:215-241 | the emitted detail cells and the filler; stated by `FitSpan`, `FitShape` and `PushDetails` |
| TableNext.DetailRow | src/components/table/next/mod.rs:198-241 | the detail row with its spacer; stated by `DetailRowSpan`, `DetailRowShape` and `RenderDetails` |
| TableNext.ToggleMessage | src/components/table/next/mod.rs:246 | the toggle's message; stated by `ToggleFlips` |
| TableNext.ExpandableModes | src/components/table/next/mod.rs:107-116 | exactly `Expandable` and `CompactExpandable` are expandable |
| TableNext.TableClass | src/components/table/next/mod.rs:60-90 | the pushes build the class list `TableClassList` |
| TableNext.TableClassLayout | src/components/table/next/mod.rs:60-70 | the list starts with "pf-c-table", then the sticky class when the header is sticky, then the grid's classes in one piece |
| TableNext.TableClassNames | src/components/table/next/mod.rs:60-90 | each of the table's own class names is present exactly when its rule asks for it (or the grid adds it); nothing else is added |
| TableNext.ModeClassNames | src/components/table/next/mod.rs:72-86 | which of the class names each mode adds |
| TableNext.RenderRow | src/components/table/next/mod.rs:274-317 | one data cell per header column in header order with its label, then one action cell when there are actions; every cell spans one column |
| TableNext.EmittedStops | src/components/table/next/mod.rs:215-235 | every detail cell before the last emitted one leaves budget, and emission stops early only once the budget is used up |
| TableNext.DetailCells | src/components/table/next/mod.rs:215-225 | one detail cell per span, in order, spanning their sum |
| TableNext.DetailRowSpan | src/components/table/next/mod.rs:198-241 | the detail row spans the toggle column plus every header column, or more when an emitted cell overruns the budget |
| TableNext.FitSpan | src/components/table/next/mod.rs:215-241 | the emitted cells and the filler span exactly the budget, or the emitted cells' sum after an overrun |
| TableNext.DetailRowShape | src/components/table/next/mod.rs:206-241 | the spacer leads exactly when the details are not full width; the first detail cell is always emitted; only spacer, detail and filler cells occur |
| TableNext.FitShape | src/components/table/next/mod.rs:215-241 | within a budget only detail and filler cells occur, and the first span always gets its cell |
| TableNext.RenderDetails | src/components/table/next/mod.rs:198-241 | the spacer, detail and filler pushes build `DetailRow` |
| TableNext.PushDetails | src/components/table/next/mod.rs:215-241 | the loop with its early exit, then the filler, appends exactly `Fit` of the budget |
| TableNext.EmittedUnique | src/components/table/next/mod.rs:227-234 | the emitted count is the one that stops at the end or at the first prefix that uses the budget up |
| TableNext.AriaExpanded | src/components/table/next/mod.rs:188-191 | "true" exactly when expanded, "false" exactly when collapsed |
| TableNext.ToggleFlips | src/components/table/next/mod.rs:246 | the toggle's message carries the entry key and the flipped state; acting on it twice restores the state |
| TableNext.RenderExpandableEntry | src/components/table/next/mod.rs:172-266 | the button classes are "pf-c-button", "pf-m-plain" and then "pf-m-expanded" exactly when expanded; the aria value and toggle message; the top row is the toggle cell, the data cells and the action cell when there are actions; the detail row is `DetailRow`; the row classes; without actions or an overrun the detail row spans exactly the top row |
| TableNext.ButtonClassExpanded | src/components/table/next/mod.rs:182-186 | the toggle button has "pf-m-expanded" exactly when the entry is expanded |
| TableNext.RenderTopRow | src/components/table/next/mod.rs:250-260 | the toggle cell, then one data cell per header column, then the action cell when there are actions; every cell spans one column |
| TableNext.DetailRowAlignsWithTop | src/components/table/next/mod.rs:198-241 | without an overrunning detail cell, the detail row spans exactly the toggle column plus the header columns |

## Left out

- Each call of `trigger_next_cleanup` reads the clock once, as its parameter. The source reads it again for each heap entry it pops, and these reads are taken as one instant. The separate reads of `add_toast` and `cleanup` are separate parameters.
- Toast.ToastViewer.AddToast: coverage is promised only when the trigger's clock read is not after the new expiry. When a near-zero timeout has already passed at that read, the source pops the deadline as past and arms nothing. The entry then has no close callback and stays until an unrelated cleanup (`LateArmDropsDeadline`).
- The `log::debug!` calls in `schedule_cleanup` and `trigger_next_cleanup` only write to the log.
- `TimeoutService` and the real timer callback are left out. A fired timer is a call to `Cleanup`, and its `TimeoutTask` is kept as the deadline it was armed for.
- Toast.ToastViewer.Cleanup: coverage is promised only when the timer fired on time, meaning its deadline is not after the trigger's clock read, and that read is not after the reaping read. A timer cleared any other way may leave a pending deadline unarmed.
- Instants and durations are whole milliseconds. `DateTime` arithmetic that panics on overflow is not modelled.
- The `usize` id counter is unbounded, so its overflow is not modelled.
- The iteration order of the viewer `HashSet` is not modelled. `show_toast` responds to some registered viewer, chosen nondeterministically.
- `handle_input`, `ToastDispatcher`, `ToastBridge` and the agent's `link` are Yew plumbing. They only forward a toast to `show_toast` or `add_toast`.
- `is_respondable` is a field of the handler id.
- The browser alert is the `Dropped` value that carries its text. The browser call is not modelled.
- HTML rendering is not modelled. The toast body is an opaque string, and actions are kept only by their text.
- The `view` and `change` of the viewer and the `Perform` dispatch are Yew component plumbing.
- Class lists are sequences. Yew's `Classes` set semantics (deduplication, splitting on whitespace) is not modelled.
- The grid's classes (`extend_from(&props.grid)`) are a parameter, because they come from the grid modifier's own rendering outside this model.
- Cell details that do not affect layout are not modelled: cell content, `center`, `text_modifier` and the detail cells' modifiers.
- `render_header` and `render_entries` only dispatch on `is_expandable`, so they are not modelled separately. `render_normal_entry` wraps `render_row`.
- The table's caption, id and role attributes are treated like the rest of the rendered HTML.
