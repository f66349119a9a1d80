# Venture-capital site: contact form controller and page data rules

A Dafny model of the logic inside a single-page marketing site for a
venture-capital firm. Almost all of the site is markup and animation. Its
logic sits in three places:

- **The contact form controller** (`ContactForm`, `form.dfy`). The home
  page's contact section (`src/App.js`) and the contact page
  (`src/components/Contact.js`) hold the same three text fields (`name`,
  `email`, `message`) and the same `isSubmitted` flag. They use the same
  input handler and the same submit handler. One class, `ContactForm.Form`,
  models both. A submit is accepted when all three fields are truthy
  strings. Only `""` is falsy, and nothing is trimmed. An accepted submit
  raises the flag and clears the fields. It also starts a 3000 ms timer
  that lowers the flag again. The timer handle is never kept, so no timer
  is ever cancelled. Each accepted submit adds a timer of its own, and
  whichever timer falls due first lowers the flag, even if a later submit
  came after the one that started it.
  Time is an abstract millisecond clock `now`. The browser's timer queue
  is the sequence `pending` of due times. `Advance(dt)` moves the clock
  and fires every timer due by the new time. A ghost history `accepted`
  holds the times of the accepted submits. `Valid()` ties the real state
  to that history: `pending` holds exactly the resets of accepted submits
  that have not fallen due (`Unfired(Dues(accepted), now)`). The flag
  equals `FlagUp(accepted, now)`: some submit was accepted, and no reset
  of any submit fell due after the latest one.
- **The portfolio page** (`Portfolio`, `portfolio.dfy`). The featured
  project is the first item marked `featured`, or else the first item of
  all. The other projects are the non-featured items, in list order.
- **The team page** (`Team`, `team.dfy`). Partners are the members of
  type `'partner'` and leads are the members of type `'lead'`. Both keep
  list order.

`Lists` (`lists.dfy`) models JavaScript's `Array.prototype.find` and
`Array.prototype.filter` on sequences. `Wrappers.Option` stands for a
`find` that returns `undefined`.

A tidier design would have a new submission cancel and replace the
pending reset, and would cancel it when the form is torn down. The code
does neither: `setTimeout` at
`src/App.js:77` and `src/components/Contact.js:24` discards its handle,
and neither component has a cleanup. This model follows the code.
`OverlapScenario` shows the consequence: with submits at 0 and 1000 the
banner goes down at 3000, not at 4000.

## Model

| member | source | states |
|---|---|---|
| `ContactForm.Form.constructor` | src/App.js:64-65 | A new form has all three fields `""`, the flag down, the clock at 0 and no pending timer; the state is consistent with an empty submission history |
| `ContactForm.Form.SetField` | src/App.js:67-69 | Setting field `k` to `v` changes that one field to `v`; the other two fields, the flag, the clock and the pending timers stay as they were |
| `ContactForm.Form.Submit` | src/App.js:71-80 | Accepted exactly when name, email and message are all non-empty. If accepted: flag up, all fields `""`, one more pending reset at `now + 3000` behind the existing ones (none removed), and a second submit would now be refused. If refused: fields, flag and timers all unchanged |
| `ContactForm.Form.Advance` | src/components/Contact.js:24 | The clock moves by `dt`; exactly the pending resets due by the new time fire and leave the queue; the flag drops if at least one fired and is otherwise unchanged; the fields are never touched |
| `ContactForm.ConsistentSubmit` | src/App.js:76-78 | An accepted submit at `now` keeps the state consistent with its history: the new reset joins the pending ones and the flag is up |
| `ContactForm.ConsistentAdvance` | src/components/Contact.js:24 | Moving the clock forward keeps the state consistent with its history when the resets due by then leave the queue and, if any did, the flag goes down |
| `ContactForm.UnfiredAfterSubmit` | src/App.js:77 | An accepted submit adds exactly one pending reset, due 3000 ms later, after the resets already pending, and cancels none |
| `ContactForm.UnfiredLater` | src/components/Contact.js:24 | Letting time run from `t` to `t2` in two steps leaves the same pending resets as one step: a reset fires once and never comes back |
| `ContactForm.FlagUpLater` | src/App.js:77 | From `t` to a later `t2` the flag stays up exactly when it was up and no reset of any accepted submit falls due in between, so an older submit's timer lowers the flag set by a newer one |
| `ContactForm.PendingFallsDue` | src/components/Contact.js:24 | A reset pending at `t` falls due by `t2` exactly when some accepted submit's reset is due after `t` and by `t2`: the pending queue holds one reset per accepted submit not yet fired |
| `ContactForm.DuesAt` | src/App.js:77 | The reset of the `j`-th accepted submit is due 3000 ms after it |
| `ContactForm.TruthinessScenario` | src/App.js:73 | A submit with an empty name is refused and leaves the flag down; a submit with three blank `" "` fields is accepted, because the test is truthiness and not trimming |
| `ContactForm.ResubmitScenario` | src/components/Contact.js:20-25 | After an accepted submit, the next submit is refused, and so is one with only two fields refilled; once all three are refilled it is accepted again |
| `ContactForm.SingleResetScenario` | src/components/Contact.js:23-25 | After one accepted submit the flag is still up at 2999 ms, down at 3000 ms, and the fields stay cleared |
| `ContactForm.OverlapScenario` | src/App.js:77 | Submits accepted at 0 and 1000: the flag is up at 2999, down at 3000 with the second reset still pending, and still down at 4000 |
| `Lists.Find` | src/components/Portfolio.js:31 | `None` exactly when no element satisfies the test; otherwise the element at the first index that satisfies it |
| `Lists.Filter` | src/components/Team.js:26-27 | The result is no longer than the input and every element in it satisfies the test |
| `Lists.FilterMembers` | src/components/Team.js:26-27 | A value is in the filtered sequence exactly when it is in the input and satisfies the test |
| `Lists.FilterAppend` | src/components/Portfolio.js:32 | Filtering a concatenation is the concatenation of the filtered parts: filter keeps relative order |
| `Portfolio.FeaturedItem` | src/components/Portfolio.js:31 | `None` exactly for an empty list; if some item is featured, the first featured item; if none is, the first item |
| `Portfolio.OtherItems` | src/components/Portfolio.js:32 | An item is listed exactly when it is in the list and not featured |
| `Portfolio.OtherItemsAppend` | src/components/Portfolio.js:32 | The other items of a concatenation are the other items of each part, in order |
| `Portfolio.FeaturedNotInOthers` | src/components/Portfolio.js:31-32 | When some item is featured, the featured item shown is featured and is not among the other items |
| `Portfolio.NoFeaturedFirstTwice` | src/components/Portfolio.js:31-32 | When no item is featured, the first item is shown as featured and the other items are the whole list, so the first item appears twice |
| `Portfolio.LaterFeaturedDropped` | src/components/Portfolio.js:31-32 | A featured item after the first featured one, and different from it, is neither the featured item nor among the others |
| `Portfolio.FirstOnlyFeatured` | src/components/Portfolio.js:31-32 | When only the first item is featured, it is the featured item and the others are the rest of the list unchanged |
| `Portfolio.PortfolioSplit` | src/components/Portfolio.js:23-32 | For the page's own list the featured item is SYNAPSE AI, and the others are GEO-CHARGE, LEDGER-X, BioCode and AetherNet in that order |
| `Team.Partners` | src/components/Team.js:26 | A member is a partner exactly when it is in the list and its type is `'partner'` |
| `Team.Leads` | src/components/Team.js:27 | A member is a lead exactly when it is in the list and its type is `'lead'` |
| `Team.TiersAppend` | src/components/Team.js:26-27 | Both tiers of a concatenation are the tiers of each part, in order |
| `Team.TiersDisjoint` | src/components/Team.js:26-27 | No partner is also a lead |
| `Team.OtherKindHidden` | src/components/Team.js:26-27 | A member whose type is neither `'partner'` nor `'lead'` is in neither tier |
| `Team.TiersCover` | src/components/Team.js:26-27 | When every member is a partner or a lead, the two tiers together have as many entries as the list |
| `Team.TeamTiers` | src/components/Team.js:18-27 | For the page's own list the partners are its first two members and the leads its last three |
| `Team.TeamSplit` | src/components/Team.js:18-27 | For the page's own list the partners are Adrian Vane and Dr. Lena Voss, the leads are Marco Diaz, Chloe Park and Samir Kahan, and together they count all five members |

## Left out

- Rendering: all JSX markup, inline styles, the success banner's display and `AnimatePresence` are presentation only.
- Animation variants (`src/App.js:14-51`, `src/components/Team.js:5-16` and the like): floating-point settings read by an animation library that is not part of this model.
- Routing (`src/App.js:113-175`): path matching is done by the router library, which is not part of this model.
- The scroll listener and `scrollToSection` (`src/App.js:58-62`, `src/App.js:83-85`): browser events and DOM calls; `scrollY` is a float.
- `console.log` of the submission (`src/App.js:75`, `src/components/Contact.js:22`): output only, with no effect on state.
- `e.preventDefault()` and the inputs' `required` attributes: browser form behaviour, outside the controller.
- React's batching of state updates and the closure over `formData`: each event is modelled as running to completion on the latest state.
- Unmounting: neither component cancels its timers when it goes away, and the model has no unmount step. A timer started before an unmount is simply still pending.
- Field names: `SetField` takes one of the three input names as a `Field` value. The handler writes `e.target.name` as a key. Only the three inputs call it, so no fourth key can appear.
- Time: the clock is a whole number of milliseconds and runs without bound. Browser timer jitter and float time are not modelled. When a reset falls due at the same millisecond as a later submit, the reset runs first.
- The About pages (`About.js`, `src/components/About.js`): static copy and animation only, with no logic.
