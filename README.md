# Company-profile page view state, modelled in Dafny

The page is a React single-page company profile. Nearly all of it is static
markup. The logic it does have lives in a handful of small view-state
controllers, and this project models them and proves what they promise.

- **Contact form** (`ContactSection`). The form has four text fields. On submit
  they are validated with trim-non-empty tests, and the e-mail field also with the
  lenient unanchored pattern `\S+@\S+\.\S+`. Editing a field clears that field's
  error. A valid submit goes through three steps: submitting, then a success banner
  with the fields reset, then the banner cleared.
- **Client carousel** (`TestimonialsSection`). It has seven cards with next and
  previous buttons that wrap around, one dot per card, and swipe gestures with a
  50-pixel dead zone. An auto-advance interval is replaced every time the card
  changes.
- **Service spotlight** (`ServicesSection`). It shows four services. One interval,
  created on mount, rotates the spotlight. A tab click jumps to a service without
  touching that interval.
- **Portfolio filter** (`ProjectsSection`). A fixed list is filtered by category,
  with "All" showing everything, recomputed by an effect after each change of
  category.
- **Navigation bar** (`Navbar`). It holds a `scrolled` flag with a strict 50-pixel
  threshold, a mobile menu toggle, and links that close the menu.
- **One-shot reveal.** The About, Services, Projects, Testimonials and Contact
  sections all use it. An IntersectionObserver adds an animation class the first
  time the section comes into view, then stops watching.

Each component's `useState` slots are the fields of a Dafny `class`. Each event
handler, timer callback and effect is a `method` whose contract states the new
state. The pure parts are functions with their own lemmas: JavaScript `%` on
indices, `trim`, the e-mail regular expression, and `Array.filter`. Timers and
observers are not timed. Each is an explicit event such as `IntervalFired`,
`SendTimeoutFired` or `Intersect`, and the model counts how many timers are
scheduled.

Files: `common.dfy` (Option), `circular.dfy` (wrap-around index arithmetic and
highlighting), `text.dfy` (whitespace, `trim`, the e-mail pattern), `contact.dfy`,
`testimonials.dfy`, `services.dfy`, `projects.dfy`, `navigation.dfy`,
`reveal.dfy`.

The model has four central pieces of proof:

- **Error map.** `Contact.ContactSection.ValidateForm` installs exactly the
  reference error map `Contact.Errors`. That map has one entry per failing field,
  each decided by that field's value alone.
- **E-mail scan.** The recursive scan `Text.LooksLikeEmail` decides exactly whether
  the regular expression occurs somewhere in the value (`Text.PatternOccurs`).
- **Rotation.** `Circular.AdvanceIsOffset` shows that `k` rotation ticks land on
  `(i + k) mod n`.
- **Filter.** `Projects.Keep` returns exactly the matching projects, in order, with
  their multiplicities.

## Model

| member | source | states |
|---|---|---|
| Circular.Next | src/components/TestimonialsSection.tsx:106-108 | `(i + 1) % n` stays in `[0, n)` and wraps the last index to 0 |
| Circular.Prev | src/components/TestimonialsSection.tsx:110-114 | `(i - 1 + n) % n` stays in `[0, n)` and wraps 0 to the last index |
| Circular.NextPrevInverse | src/components/TestimonialsSection.tsx:106-114 | previous after next, and next after previous, return to the same index |
| Circular.Advance | src/components/ServicesSection.tsx:91-96 | the index after `k` successive rotation ticks stays in range |
| Circular.AdvanceIsOffset | src/components/ServicesSection.tsx:92-93 | `k` ticks from `i` land on `(i + k) mod n`, so the rotation visits every item in turn |
| Circular.ExactlyOneHighlighted | src/components/TestimonialsSection.tsx:192-199 | of the `n` dots or tabs, exactly one, the active one, is highlighted |
| Text.TrimStartSpec | src/components/ContactSection.tsx:102 | the start trim drops a whitespace-only prefix and stops at the first non-whitespace character |
| Text.TrimEndSpec | src/components/ContactSection.tsx:102 | the end trim drops a whitespace-only suffix and stops at the last non-whitespace character |
| Text.TrimSpec | src/components/ContactSection.tsx:102 | `trim()` is no longer than its input, has non-whitespace ends, and is empty (falsy) exactly when the input is all whitespace |
| Text.IsBlank | src/components/ContactSection.tsx:102 | `!value.trim()` holds exactly when every character is whitespace |
| Text.LooksLikeEmailMatchesPattern | src/components/ContactSection.tsx:110 | the scan succeeds exactly when some substring is `\S+` `@` `\S+` `.` `\S+` |
| Text.TestEmailPattern | src/components/ContactSection.tsx:110 | the regular-expression test on the untrimmed value holds exactly when the pattern occurs in it |
| Text.EmailExamples | src/components/ContactSection.tsx:110 | "foo" and "a@b." fail; "a@b.c" passes, and so does " x a@b.c " (the pattern is unanchored) |
| Contact.FormData.With | src/components/ContactSection.tsx:90 | `{ ...prev, [name]: value }` sets the named field and keeps the other three |
| Contact.ChecksAreIndependent | src/components/ContactSection.tsx:98-123 | whether a field has an error, and which one, depends on that field's value alone |
| Contact.EmptyFormHasFourErrors | src/components/ContactSection.tsx:98-123 | validating `initialFormData` yields exactly the four "... is required" errors |
| Contact.BlankFieldRejected | src/components/ContactSection.tsx:102-123 | name, subject and message fail exactly when blank after trimming (whitespace-only included), with their "required" message |
| Contact.EmailOutcomes | src/components/ContactSection.tsx:107-113 | the e-mail field has three exclusive outcomes: blank gives "Email is required", else no pattern gives "Email address is invalid", else no error |
| Contact.ErrorsByField | src/components/ContactSection.tsx:98-123 | a field is in the error map exactly when its check fails, with that check's message |
| Contact.SequentialChecksGiveErrors | src/components/ContactSection.tsx:99-123 | recording the four checks one after another gives the reference error map |
| Contact.NoErrorsIffAllPass | src/components/ContactSection.tsx:99-126 | the error map is empty exactly when all four checks pass |
| Contact.ErrorMessagesPresent | src/components/ContactSection.tsx:103-121 | every stored error message is non-empty, so truthy where the form tests it |
| Contact.RequireFilled | src/components/ContactSection.tsx:102-105 | one trim test records the field's check outcome and clears `isValid` exactly when it fails |
| Contact.RequireEmail | src/components/ContactSection.tsx:107-113 | the e-mail `if`/`else if` records the e-mail check outcome and clears `isValid` exactly when it fails |
| Contact.FilledFormIsValid | src/components/ContactSection.tsx:98-126 | the form "Ana", "a@b.c", "Hi", "Hello" passes every check |
| Contact.ContactSection.constructor | src/components/ContactSection.tsx:25-39 | the initial state: empty form, no errors, not submitting, no banner |
| Contact.ContactSection.SubmitDisabled | src/components/ContactSection.tsx:322 | the button is disabled exactly while submitting, and a disabled button always has a scheduled send whose continuation re-enables it |
| Contact.ContactSection.HandleChange | src/components/ContactSection.tsx:86-96 | the named field takes the value, the others keep theirs, and that field's error, and only it, is removed whatever the value |
| Contact.ContactSection.ValidateForm | src/components/ContactSection.tsx:98-127 | the whole error map is replaced by the reference map, and the result is true exactly when it is empty |
| Contact.ContactSection.HandleSubmit | src/components/ContactSection.tsx:129-134 | validates; a valid form starts submitting and schedules one send; an invalid one leaves the submit state alone; no guard on a send in flight |
| Contact.ContactSection.ClickSubmit | src/components/ContactSection.tsx:221-322 | a click while submitting, or one the browser's `type="email"` constraint check rejects, changes nothing; otherwise it is `handleSubmit` |
| Contact.ContactSection.SendTimeoutFired | src/components/ContactSection.tsx:136-145 | stops submitting, shows the success result (success = true), resets the fields, keeps the errors, schedules one clear |
| Contact.ContactSection.ClearTimeoutFired | src/components/ContactSection.tsx:146-148 | the banner is set back to null |
| Testimonials.SwipeOf | src/components/TestimonialsSection.tsx:122-125 | a gesture of at most 50 pixels either way is no swipe; forward needs the finger to move left, backward to the right |
| Testimonials.SwipeMirror | src/components/TestimonialsSection.tsx:123-125 | reversing a gesture turns forward into backward and keeps the dead zone |
| Testimonials.SwipeTranslationInvariant | src/components/TestimonialsSection.tsx:123 | only the distance travelled matters, not where the gesture starts |
| Testimonials.AfterSwipe | src/components/TestimonialsSection.tsx:124-125 | the card after a gesture is in range and changes exactly when the gesture is a swipe |
| Testimonials.SwipeBackRestores | src/components/TestimonialsSection.tsx:120-127 | swiping back along the same path returns to the original card |
| Testimonials.SlideOffsetPercent | src/components/TestimonialsSection.tsx:155 | the row offset lies between -600% and 0% |
| Testimonials.ShowsActiveCard | src/components/TestimonialsSection.tsx:152-159 | after the offset, the card in the viewport is exactly the active one |
| Testimonials.TestimonialsSection.constructor | src/components/TestimonialsSection.tsx:72-104 | mount: first card, no touch start, one interval created |
| Testimonials.TestimonialsSection.SetActiveIndex | src/components/TestimonialsSection.tsx:99-104 | the index becomes the argument; a change clears the interval and creates a new one, so one interval is live |
| Testimonials.TestimonialsSection.NextSlide | src/components/TestimonialsSection.tsx:106-108 | the next card, 6 wraps to 0, and the interval is replaced |
| Testimonials.TestimonialsSection.PrevSlide | src/components/TestimonialsSection.tsx:110-114 | the previous card, 0 wraps to 6, and the interval is replaced |
| Testimonials.TestimonialsSection.SelectDot | src/components/TestimonialsSection.tsx:195 | a dot click shows exactly that dot's card |
| Testimonials.TestimonialsSection.IntervalFired | src/components/TestimonialsSection.tsx:100-102 | the 6000 ms tick advances one card and re-arms the interval |
| Testimonials.TestimonialsSection.HandleTouchStart | src/components/TestimonialsSection.tsx:116-118 | the gesture start is recorded |
| Testimonials.TestimonialsSection.HandleTouchEnd | src/components/TestimonialsSection.tsx:120-127 | no recorded start changes nothing; otherwise the recognised swipe is applied and the start is reset to null, whatever the outcome |
| Testimonials.TestimonialsSection.Unmount | src/components/TestimonialsSection.tsx:103 | the cleanup leaves no live interval |
| Services.ServicesSection.constructor | src/components/ServicesSection.tsx:65-96 | mount: first service, one interval created |
| Services.ServicesSection.IntervalFired | src/components/ServicesSection.tsx:92-93 | `(prev + 1) % 4`, 3 wraps to 0, and the interval is untouched |
| Services.ServicesSection.SelectTab | src/components/ServicesSection.tsx:124 | a tab click spotlights that tab's service; still only the one interval ever created |
| Services.ServicesSection.Unmount | src/components/ServicesSection.tsx:95 | the cleanup clears the interval |
| Services.ServicesSection.ActiveTitle | src/components/ServicesSection.tsx:150-164 | the details panel reads a valid entry of `services` |
| Services.SpotlightIsOffset | src/components/ServicesSection.tsx:91-96 | the spotlight is the last chosen service plus the ticks since, mod 4, and returns there every four ticks |
| Services.OneTabHighlighted | src/components/ServicesSection.tsx:125-134 | exactly one tab is highlighted and the panel shows its service |
| Projects.Keep | src/components/ProjectsSection.tsx:97 | `filter` by category keeps exactly the matching projects, in their order, each as often as it occurs |
| Projects.FilterProjects | src/components/ProjectsSection.tsx:93-99 | "All" shows the whole list; any other category shows exactly its projects, as a subsequence of the list |
| Projects.AllNeedsItsOwnCase | src/components/ProjectsSection.tsx:94-95 | no project has category "All", so the special case is what makes "All" show the whole list |
| Projects.MarketingShowsOne | src/components/ProjectsSection.tsx:38-45 | "Marketing" shows exactly the one marketing project |
| Projects.AbsentCategoryShowsNothing | src/components/ProjectsSection.tsx:97 | a category no project carries shows nothing |
| Projects.ClickedButtonOnlyHighlighted | src/components/ProjectsSection.tsx:117-125 | the category labels are distinct, so exactly the clicked button is highlighted |
| Projects.ProjectsSection.constructor | src/components/ProjectsSection.tsx:67-68 | mount: "All" selected and the whole list shown |
| Projects.ProjectsSection.ClickCategory | src/components/ProjectsSection.tsx:120 | the filter becomes the clicked category; the same category again changes nothing |
| Projects.ProjectsSection.RunFilterEffect | src/components/ProjectsSection.tsx:93-99 | the shown list is recomputed from the original list for the current filter alone |
| Projects.Reselect | src/components/ProjectsSection.tsx:93-99 | selecting the current category again leaves the state, and the shown list, unchanged |
| Projects.BackToAll | src/components/ProjectsSection.tsx:94-95 | from any state, "All" and its effect bring the whole list back |
| Navigation.ScrolledThreshold | src/components/Navbar.tsx:25-29 | the flag is set exactly for offsets strictly above 50 (50 itself is not scrolled), and scrolling further never clears it |
| Navigation.Navbar.constructor | src/components/Navbar.tsx:19-36 | mount: menu closed, not scrolled, listener registered |
| Navigation.Navbar.HandleScroll | src/components/Navbar.tsx:23-30 | only `scrolled` changes, to the threshold test of the offset |
| Navigation.Navbar.ToggleMenu | src/components/Navbar.tsx:82 | the menu flag flips and nothing else changes |
| Navigation.Navbar.ScrollToSection | src/components/Navbar.tsx:38-44 | the menu is closed whether or not the target exists; it scrolls exactly when one exists |
| Navigation.Navbar.Unmount | src/components/Navbar.tsx:33-35 | the cleanup removes the listener |
| Navigation.ToggleTwice | src/components/Navbar.tsx:82 | two presses of the menu button restore the menu state |
| Reveal.RevealTrigger.constructor | src/components/AboutSection.tsx:7-20 | the container is watched exactly when its ref is attached, and nothing is revealed yet |
| Reveal.RevealTrigger.Intersect | src/components/AboutSection.tsx:9-14 | a report that is not intersecting, or comes after the watch ended, changes nothing; the first intersecting one adds the class once and stops the watch; classes are never removed |
| Reveal.RevealTrigger.Teardown | src/components/AboutSection.tsx:22-26 | the cleanup stops the watch only when the ref is still set, and never reveals |

## Left out

- `src/components/HeroSection.tsx` is not part of this model. Its parallax effect is a
  scroll listener that writes a floating-point `scrollY * 0.3` into the DOM.
- `src/components/Footer.tsx` is not part of this model. It is static markup plus the
  current year.
- `src/App.tsx` is not part of this model. It composes the sections and sets the
  document title. `ProjectsSection` is commented out there, but its logic is modelled
  anyway, and `ScrollToTop` is not among the files shown.
- Rendering is left out: JSX, CSS class strings, icons, images and the map iframe. Of
  the static content arrays, only what the logic reads is kept: the card count, the
  service titles, the projects' id, title and category (the id is only a list key), and the category labels.
- Browser APIs are explicit events.
  - `setInterval`, `setTimeout` and their delays (1500, 5000 and 6000 ms) become
    events fired in any order the preconditions allow.
  - IntersectionObserver becomes `Intersect(isIntersecting)`, so its 0.1 threshold
    is not modelled.
  - Touch events are reduced to their `clientX`.
  - `document.querySelector` becomes the `targetFound` flag.
  - `scrollIntoView` and `preventDefault` are left out.
- React scheduling is simplified. Each state update is applied when its event happens.
  Batching, and handlers that read a slot from an older render, are not modelled.
  - The one consequence the model keeps is the filter effect in the projects
    section. It runs as a separate step (`RunFilterEffect`), so the render between a
    click and the effect shows the previous list.
  - A `setActiveIndex` with the current value bails out before committing, so the
    `[activeIndex]` effect does not re-run and the carousel interval is not re-armed.
- Contact.ContactSection.ClickSubmit: the browser's constraint validation of the
  `type="email"` input (src/components/ContactSection.tsx:255, inside a form without
  `noValidate` at :221) is a parameter, `browserAccepts`, not a model of the HTML
  e-mail grammar. The model does not relate it to the address: a value such as "foo"
  is stopped by the browser before `handleSubmit` runs, so "Email address is invalid"
  is only reachable in the browser for values the HTML grammar accepts but the
  pattern does not (such as "a@b"). The browser also strips leading and trailing
  whitespace from an e-mail input's value; `HandleChange` accepts any value, so the
  model admits e-mail values the page can never hold.
- The contact form has no unmount cleanup for its two timeouts. When they fire after
  unmount, React drops the updates, and that case is not modelled.
- The carousel accepts events only while mounted; of the spotlight's events only the
  interval tick requires its interval to be live, and a tab click after unmount, which
  cannot happen once the tabs are gone, is not excluded.
- Whitespace for `trim` and `\S` is the fixed ECMAScript WhiteSpace and LineTerminator
  set. There is no Unicode-version dependence.
- The regular expression itself is not modelled. It is replaced by the substring
  property it tests, and a recursive scan is proved equivalent to that property.
- Errors are cleared with `[name]: undefined`. The model removes the key instead,
  because every reader of the map tests messages for truthiness.
- `scrollY` and touch coordinates are modelled as exact reals. NaN, infinities and
  rounding are not represented.
- The five sections' reveals are not fields of their section classes. Each section is
  one `Reveal.RevealTrigger`, distinguished by `Reveal.Section`.
- Testimonials.SlideOffsetPercent: the CSS string `translateX(-N%)` is not built; the
  function gives its number.
