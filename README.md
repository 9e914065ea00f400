# Travel-site interaction layer, modelled in Dafny

This project models the browser scripts of a travel-booking site. There are
two scripts. `js/script.js` runs the image slider, the mobile menu, the
destination filter, the contact form and the active navigation link.
`js/planejamento.js` runs the group-trip planning page: the date guard, the
group form and its modal, the package buttons and the cost calculator.

The DOM is abstracted into plain state:

- Element lists become arrays or sequences of flags. A flag is true when the
  element carries the `active` class, or when a card is displayed.
- Input values arrive already parsed, as `Option` values. `None` stands for
  an empty or unparseable value, or for `getAttribute` returning `null`.
- Dates are integer day numbers.
- Messages shown with `alert` become outcome values.

Stateful parts are classes whose methods update fields:

- `Slider.Controller`: the current index, the slides and dots, and the
  autoplay interval.
- `MobileMenu.Menu`: the menu's open state, icon and ARIA attribute.
- `DestinationFilter.Filter`: the filter buttons and the cards.
- `Planning.Page`: the date inputs, the group form, the modal and the
  calculator fields.

The decision procedures are pure functions: the contact form, the group
form check, the calculator, the package title and the last path segment.

Modules:

| file | module | source |
|---|---|---|
| wrappers.dfy | Wrappers | `Option` |
| marks.dfy | Marks | the "active" class over element lists |
| slider.dfy | Slider | js/script.js, slider |
| menu.dfy | MobileMenu | js/script.js, mobile menu |
| filter.dfy | DestinationFilter | js/script.js, destination filter |
| contact.dfy | ContactForm | js/script.js, contact form |
| navlinks.dfy | NavLinks | js/script.js, `setActiveNavLink` |
| calculator.dfy | CostCalculator | js/planejamento.js, `calcularDivisaoCustos` |
| packages.dfy | Packages | js/planejamento.js, `initPacoteButtons` |
| planning.dfy | Planning | js/planejamento.js, dates, group form, modal, calculator fields |

## Model

| member | source | states |
|---|---|---|
| Slider.JsRem | js/script.js:67 | JavaScript's `%`: the result differs from the dividend by a multiple of n; for a dividend ≥ 0 it lies in [0, n), for a negative one in (-n, 0], keeping the dividend's sign |
| Slider.NextIndex | js/script.js:63-69 | from any index ≥ 0, even one past the last slide, the next index is (c + 1) mod n and lies in [0, n); inside the range it is c + 1, and the last slide wraps to 0 |
| Slider.PrevIndex | js/script.js:74-80 | from any index ≥ 0, even one past the last slide, the previous index is (c - 1) mod n and lies in [0, n); inside the range it is c - 1, and slide 0 wraps to n - 1 |
| Slider.OutOfRangeExamples | js/script.js:36-40 | after a dot click stores index 4 or 5 with three slides, next gives 2 and previous gives 1 |
| Slider.NextPrevInverse | js/script.js:63-80 | for an in-range index, previous undoes next and next undoes previous |
| Slider.AdvanceTimes | js/script.js:63-68 | the definition of k consecutive "next" steps (button clicks or autoplay ticks); from an index ≥ 0, at least one step lands in [0, n); AdvanceTimesWithinCycle and FullCycle prove where it lands |
| Slider.AdvanceTimesWithinCycle | js/script.js:63-68 | k ≤ n advances from c give c + k, wrapped once past n |
| Slider.FullCycle | js/script.js:63-68 | advancing n times returns to the starting slide |
| Slider.NavigationRecovers | js/script.js:63-91 | after goToSlide stores an index ≥ n, one next or previous brings the index back into [0, n) |
| Slider.NegativeIndexStaysNegative | js/script.js:67 | JavaScript's sign-keeping `%` leaves a negative index negative after next (-3 becomes -2) |
| Slider.Controller.AtMostOneTimer | js/script.js:55-58 | under the controller invariant at most one interval is live, and any live interval is the stored handle |
| Slider.Controller.Init | js/script.js:20-50 | index 0; slides and dots keep their markup classes; handlers and autoplay exist exactly when there is at least one slide |
| Slider.Controller.StartAutoPlay | js/script.js:55-58 | the stored interval is cleared before a fresh one is scheduled, so exactly one interval is live afterwards |
| Slider.Controller.UpdateSlider | js/script.js:96-114 | with no slides nothing changes; otherwise only the slide and dot at the current index are active (none if out of range) and autoplay restarts |
| Slider.Controller.NextSlide | js/script.js:63-69 | with no slides nothing changes; otherwise the index becomes NextIndex of the old one, rendering follows, autoplay restarts |
| Slider.Controller.PrevSlide | js/script.js:74-80 | with no slides nothing changes; otherwise the index becomes PrevIndex of the old one, rendering follows, autoplay restarts |
| Slider.Controller.GoToSlide | js/script.js:86-91 | with no slides nothing changes; otherwise the given index is stored without a bounds check and rendered |
| Slider.Controller.OnDotClick | js/script.js:36-40 | a dot click moves to that dot's index, but only when initSlider installed the handlers |
| Slider.Controller.OnMouseEnter | js/script.js:43-44 | hovering clears the live interval and leaves the index alone |
| Slider.Controller.OnMouseLeave | js/script.js:43-45 | leaving restarts autoplay with one fresh interval |
| Slider.Controller.OnTick | js/script.js:57 | a live interval advances the slider and re-renders it, so only the slide and dot at the new index are active; with no live interval (for example while hovering) a tick changes nothing |
| Slider.HoverThenNavigate | js/script.js:96-114 | navigating while hovering still restarts autoplay, leaving exactly one live interval |
| Marks.OnlyAt | js/script.js:99-110 | the definition of the flags after clearing "active" from n elements and marking index i, if it exists; UpdateSlider's and OnButtonClick's loops are proved equal to it, and CountOnlyAt counts its marks |
| Marks.CountOnlyAt | js/script.js:99-110 | clearing every mark and marking one index leaves exactly one active element when the index is in range, otherwise none |
| Marks.AtMostOneActive | js/script.js:99-110 | after rendering, at most one slide and at most one dot are active |
| MobileMenu.IconFor | js/script.js:133-135 | the cross icon is shown exactly when the menu is open, the bars otherwise |
| MobileMenu.Toggled | js/script.js:129-139 | a toggle flips the open state, and the icon and aria-expanded match the new state |
| MobileMenu.AfterLinkClick | js/script.js:144-150 | a link click always leaves the menu closed; a closed menu is left untouched |
| MobileMenu.ToggleTwice | js/script.js:129-139 | two toggles restore the open state; they restore the whole view exactly when the icon and attribute were in step |
| MobileMenu.MirroredPreserved | js/script.js:129-150 | toggles and link clicks keep the icon and attribute in step with the state |
| MobileMenu.Menu.Toggle | js/script.js:129-139 | the menu's new view is Toggled of the old one |
| MobileMenu.Menu.OnLinkClick | js/script.js:144-150 | the menu's new view is AfterLinkClick of the old one |
| DestinationFilter.ShouldShow | js/script.js:179 | the definition of the show rule, split by case: "todos" shows any card, any other filter a card whose category equals it (a missing attribute matching only a missing one); the properties are proved by VisibilityMeaning and OnButtonClick |
| DestinationFilter.Visibility | js/script.js:175-183 | the definition of every card's visibility: card k's flag is ShouldShow of its category; VisibilityMeaning proves what it shows, and OnButtonClick's loop is proved equal to it |
| DestinationFilter.VisibilityMeaning | js/script.js:175-183 | "todos" shows every card; any other filter shows exactly the cards tagged with it |
| DestinationFilter.AllShownCount | js/script.js:179 | under "todos" the number of shown cards is the number of cards |
| DestinationFilter.Filter.constructor | js/script.js:160-166 | handlers are installed exactly when there is at least one button and at least one card |
| DestinationFilter.Filter.OnButtonClick | js/script.js:166-185 | without handlers nothing changes; otherwise only the clicked button is active and every card's display follows Visibility |
| DestinationFilter.ExactlyOneButtonActive | js/script.js:169-170 | after a click exactly one filter button is active |
| ContactForm.Filled | js/script.js:216 | the definition of JavaScript truthiness for a field: present and holding at least one character |
| ContactForm.FirstWord | js/script.js:222 | the result is a prefix of the name with no space, and is either the whole name or followed by a space |
| ContactForm.Submit | js/script.js:201-227 | rejected for the e-mail exactly when an e-mail field exists without "@"; sent exactly when name and message are filled and the e-mail exists with "@"; the greeting is the first word |
| ContactForm.EmailCheckFirst | js/script.js:205-210 | a malformed e-mail is reported before the required-fields check, even with every other field empty |
| ContactForm.MissingEmailField | js/script.js:213-219 | a form without an e-mail field skips the "@" check and fails the required-fields check |
| ContactForm.FirstWordBeforeSpace | js/script.js:222 | the first word of `w + " " + rest` is `w` whenever `w` has no space, whatever `rest` holds |
| ContactForm.GreetsFirstName | js/script.js:222-223 | "Ana Maria Souza" is greeted as "Ana" |
| ContactForm.LeadingSpaceGreetsEmpty | js/script.js:222 | a name starting with a space yields an empty greeting |
| NavLinks.LastSegment | js/script.js:254 | `split('/').pop()`: never longer than its input, and empty for a path ending in "/" (the full characterisation is LastSegmentIsSuffix) |
| NavLinks.LastSegmentIsSuffix | js/script.js:254 | the last segment is a suffix of the path without "/", and is either the whole path or preceded by "/" |
| NavLinks.LastSegmentAfterSlash | js/script.js:254 | whatever precedes the last "/" does not affect the segment |
| NavLinks.LastSegmentOfName | js/script.js:259 | a name without "/" is its own last segment |
| NavLinks.CurrentPage | js/script.js:252-254 | the current page is never empty and never holds "/"; it is the path's last segment, or "index.html" when that segment is empty |
| NavLinks.DirectoryLinkNeverActive | js/script.js:259-265 | a link whose href ends in "/" is never marked active |
| NavLinks.RootIsIndex | js/script.js:252-261 | at "/" the page is index.html, and links to index.html match it there |
| NavLinks.FirstMissing | js/script.js:259 | the index of the first link without an href, where `getAttribute('href').split` throws: every earlier link has one, and the link there has none |
| NavLinks.LinkMatches | js/script.js:259-261 | `linkHref === currentPage`: a matching link never has an empty last segment, and when the path has a non-empty segment a link matches exactly when its segment equals the path's |
| NavLinks.SetActiveNavLink | js/script.js:251-267 | each link up to the first one without an href is active exactly when its last segment is the current page; from that link on, classes are unchanged and the walk reports it did not complete |
| CostCalculator.AmountOrZero | js/planejamento.js:176-178 | parseFloat falling back to 0: the amount is 0 exactly when the field is unparseable or reads 0, and any other amount is the parsed value |
| CostCalculator.PeopleCount | js/planejamento.js:177 | the count is never 0; any nonzero parsed count is kept as typed, negative ones included; an unparseable count or 0 becomes 1 |
| CostCalculator.Calculate | js/planejamento.js:174-190 | a reset happens exactly for a negative count; otherwise the count is ≥ 1, per-person times count is the total, and per-person with extras adds the extra |
| CostCalculator.GroupTotalIsCostPlusExtras | js/planejamento.js:187-189 | over exact reals the group total is the total cost plus the extras times the count |
| CostCalculator.ResetConverges | js/planejamento.js:180-184 | after a reset the field reads 1, and the next calculation proceeds |
| CostCalculator.EmptyCountIsOnePerson | js/planejamento.js:177 | an empty count and a count of 0 are both treated as one person |
| CostCalculator.ThreePeopleExample | js/planejamento.js:186-189 | total 300, 3 people and 10 extra give 100, 110 and 330 |
| Packages.Title | js/planejamento.js:150-160 | the title is never empty; the three known keys give their titles; the default title appears exactly for a missing or unknown key |
| Packages.TitlesDistinct | js/planejamento.js:154-158 | different known packages get different titles |
| Packages.KnownTitles | js/planejamento.js:150-160 | the titles of amigos, familia and casais, and the default for other keys and for a missing attribute |
| Planning.GuardedEnd | js/planejamento.js:59-68 | a valid end date before start + 7 becomes exactly start + 7; a later one, or an empty or invalid one, is unchanged |
| Planning.EndNotAfterStart | js/planejamento.js:124 | the definition of `new Date(dataFim) <= new Date(dataInicio)`, split by case: it holds only when both dates parse, and then exactly when end ≤ start; SubmitGroup, MissingDateSlipsThrough and GuardedDatesAccepted prove what follows |
| Planning.OrDefault | js/planejamento.js:118-119 | `value or default`: a non-empty value is kept, an empty value gives the default, and the result is empty only when both are empty |
| Planning.SubmitGroup | js/planejamento.js:114-136 | rejected exactly when both dates parse and end ≤ start; on success the name and dates are kept, a non-empty count is reported as typed, and an empty count is reported as "0" |
| Planning.MissingDateSlipsThrough | js/planejamento.js:124-127 | an empty or invalid date passes the order check, whatever the other date is |
| Planning.EmptyCountReportsZero | js/planejamento.js:119 | an accepted submission with an empty count reports "0" people |
| Planning.GuardedDatesAccepted | js/planejamento.js:53-127 | once the guard has run for a valid start date, the submit check never rejects the dates it leaves |
| Planning.Page.constructor | js/planejamento.js:252-256 | page start: the end-date minimum is today, the form is empty, and the calculator has run once |
| Planning.Page.OnStartDateChange | js/planejamento.js:53-69 | an invalid start leaves the end minimum and end value alone; a valid start sets the minimum to start + 7 and the end to GuardedEnd; nothing else changes |
| Planning.Page.SubmitGroupForm | js/planejamento.js:114-137 | the outcome is SubmitGroup of the fields; a rejection leaves the form and modal as they were; a success clears the form and hides the modal |
| Planning.Page.OnOpenClick | js/planejamento.js:87-89 | an open button shows the modal |
| Planning.Page.OnCloseClick | js/planejamento.js:92-94 | the close and cancel buttons hide the modal |
| Planning.Page.OnOverlayClick | js/planejamento.js:97-102 | a click hides the modal only when its target is the overlay itself; clicks on children leave visibility unchanged |
| Planning.Page.Recalculate | js/planejamento.js:174-201 | a negative count rewrites the count field to 1 and leaves the display alone; otherwise the display shows Calculate's shares |

## Left out

- DOM lookup, the null guards on missing elements and `addEventListener` wiring are not modelled. Each event is a method of the state it changes. The page classes assume their elements exist. The contact form's missing fields and `getAttribute` returning `null` are modelled as `None`.
- The `alert` texts, `focus()` and `innerHTML` are not modelled. They become outcome values: `ContactForm.Outcome`, `Planning.GroupOutcome` and `MobileMenu.Icon`.
- Real time is not modelled: the 5000 ms interval and the 300 ms and 500 ms delays. An interval firing is `Slider.Controller.OnTick`, and `setInterval` handles come from a counter.
- `animarBarrasProgresso`, the progress-bar animation, is not modelled. It is CSS-transition plumbing with no logic to state.
- `formatarMoeda` and `formatarData` are not modelled. They are locale formatting, so the displays hold numbers and the confirmation holds day numbers rather than text.
- CostCalculator.Calculate: amounts are exact reals, not IEEE-754 doubles. Infinity, NaN and rounding are not modelled, and the group-total identity holds only in this idealisation.
- `parseInt` and `parseFloat` are not modelled, and neither is how date strings parse. Inputs arrive already parsed. For example, "2.7" people is whatever `parseInt` would give.
- Dates are day numbers. The UTC-versus-local behaviour of `Date`, `setDate` and `toISOString` is not modelled, nor are DST shifts. "Today" is a constructor parameter rather than the wall clock.
- The browser's own constraint validation (`min`, `required`) before a submit event is not modelled. The model covers only the scripts' handlers.
- `form.reset()` is modelled as emptying the group form's fields. This assumes the markup gives them no default values. The end date's `min` is not reset, matching the browser.
- Packages.Title: keys inherited from `Object.prototype` (such as "constructor") are not modelled. The map is the plain three-entry map.
- Slider.Controller.Init: the existence of the next and previous buttons is not modelled. Their clicks are calls to `NextSlide` and `PrevSlide`, which carry their own empty-slider check.
- The early return of `initMobileMenu` when the button or panel is missing is not modelled. `MobileMenu.Menu` assumes both exist.
