# Café landing page: carousel and page rules, verified in Dafny

This project models the two pieces of the café landing page's client-side
script that carry real logic.

- **The paged carousel** (`scroll-controls.js`, `initSlider`). It turns the menu
  grid and the gallery grid into sliders with wrap-around paging and one dot per
  page. It has an auto-advance interval that is restarted by clearing it first,
  a 50 px swipe rule, and a reset to page 0 on resize. `Carousel.Slider` is one
  slider instance. Its fields are the closure variables `currentIndex`,
  `totalPages`, `items` (as a count), `autoTimer` and `touchStartX`, plus the
  dot strip and the last scroll target. Two more fields stand for the browser's
  timer table: `nextHandle`, the handle `setInterval` will return next, and the
  ghost set `liveTimers`, the slider's intervals that are still registered. The live layout (viewport width, item count, first item
  width, CSS gaps) is passed to each operation as a `Layout` value.
- **The page rules** (`script.js`). These are the email validator and `trim`
  (module `Text`), and the class `Site.Page`. `Page` holds the nav links' active
  classes, the mobile-menu checkbox, the last nav scroll target, the
  notifications on screen, the submit button's sending state, and the two
  scroll-threshold effects.

Files:

- `wrappers.dfy`: `Option`.
- `marks.dfy`: rows of on/off marks. These are the `active` class over dots
  and over links.
- `carousel.dfy`: the carousel.
- `text.dfy`: JavaScript whitespace, `trim` and the email regular expression.
- `site.dfy`: the page.

The model follows the code on these points:

- A dot click only calls `goTo(i)` (scroll-controls.js:66). It does not restart
  auto-advance. Only the arrow buttons, touch end and `mouseleave`
  (scroll-controls.js:114-119, 132) restart it.
- The index is not always in `[0, totalPages)`. With no items there are no
  pages, and `prev` from page 0 leaves the index at -1 (`NoItemsPrev`). Right
  after `buildDots` on a resize, the index is not yet wrapped; `goTo(0)`
  follows immediately.
- `goTo` recomputes `totalPages` but does not rebuild the dots. The number of
  dots is the page count at the last `buildDots`. The invariant that holds at
  all times is that dot `i` is active exactly when `i == currentIndex`
  (`Slider.DotsAgree`). Exactly one dot is active only when the index is within
  the dot strip (`OneHotCount`).
- A CSS gap of 0 falls through to `column-gap` and then to 24, just as an
  unparsable gap does, because the code combines them with `||`.

## Model

| member | source | states |
|---|---|---|
| Carousel.Visible | scroll-controls.js:11-15 | 1 item per page exactly when width ≤ 520, 4 exactly when width > 900, and 2 otherwise |
| Carousel.VisibleMonotone | scroll-controls.js:11-15 | a wider viewport never shows fewer items per page |
| Carousel.PageCount | scroll-controls.js:57-59 | `ceil(items / visible)`: enough pages of `visible` items to hold every item, one page fewer would not, and zero pages exactly when there are no items |
| Carousel.PageCountUnique | scroll-controls.js:59 | the two ceiling bounds determine the page count uniquely |
| Carousel.Wrap | scroll-controls.js:91-94 | with at least one page the index lands in `[0, totalPages)`; an in-range page is kept, a page at or past the end gives 0, and a negative page gives `totalPages - 1` |
| Carousel.WrapIsNotModular | scroll-controls.js:92-93 | `goTo(-5)` on 3 pages lands on the last page (2), not on `-5 mod 3` (1) |
| Carousel.ForwardIsSuccessor | scroll-controls.js:101 | from a page in range, `next` gives `(index + 1) mod totalPages` |
| Carousel.BackIsPredecessor | scroll-controls.js:102 | from a page in range, `prev` gives `(index - 1) mod totalPages` |
| Carousel.Step | scroll-controls.js:101-102 | the index after one `next` or `prev`: on a page in `[0, totalPages)` whenever there is a page, and 0 or -1 when there is none |
| Carousel.StepsCancel | scroll-controls.js:101-102 | `prev` undoes `next` and `next` undoes `prev` |
| Carousel.NoItemsPrev | scroll-controls.js:92-102 | with zero items, `prev` from 0 yields -1 and `next` from -1 yields 0 |
| Carousel.WalkStaysOnAPage | scroll-controls.js:86-102 | any sequence of `next`/`prev` calls keeps the index in `[0, totalPages)` |
| Carousel.ForwardWalkIsModular | scroll-controls.js:101 | `k` calls of `next` advance by `k` pages modulo the page count |
| Carousel.EffectiveGap | scroll-controls.js:82 | the gap is never 0: it is `gap` if non-zero, else `column-gap` if non-zero, else 24 |
| Carousel.ScrollAmount | scroll-controls.js:76-84 | 300 per page without a first item; otherwise `(first item width + effective gap) * visible`, so a whole number of strides, one per visible item |
| Carousel.OffsetsIncrease | scroll-controls.js:96 | with a positive page distance, page 0 is at offset 0 and later pages sit strictly further right |
| Carousel.SwipeFor | scroll-controls.js:128-131 | no navigation exactly when the horizontal movement is at most 50 px (50 included); `next` exactly when the finger moved left by more than 50 px, `prev` exactly when it moved right by more than 50 px |
| Carousel.AtMostOneTimer | scroll-controls.js:104-111 | a valid slider has at most one live interval |
| Carousel.Slider.constructor | scroll-controls.js:122-143 | page 0, dots for `ceil(n / visible)` pages with dot 0 active, touch start x 0, and the first handle as the one live interval |
| Carousel.Slider.BuildDots | scroll-controls.js:56-69 | re-reads the items and recomputes `totalPages`; creates exactly `totalPages` dots with only the current page's dot active; index and timer are unchanged |
| Carousel.Slider.UpdateDots | scroll-controls.js:71-74 | keeps the number of dots and makes dot `i` active exactly when `i == currentIndex` |
| Carousel.Slider.GoTo | scroll-controls.js:86-99 | recomputes `totalPages`, sets the index to the wrapped page, scrolls to `amount * index`, syncs the existing dots, and leaves the timer alone |
| Carousel.Slider.Next | scroll-controls.js:101 | the index becomes the forward step, in range whenever there is a page |
| Carousel.Slider.Prev | scroll-controls.js:102 | the index becomes the backward step, in range whenever there is a page |
| Carousel.Slider.StopAuto | scroll-controls.js:109-111 | afterwards no interval is live and `autoTimer` is null; calling it again changes nothing |
| Carousel.Slider.StartAuto | scroll-controls.js:104-107 | clears the old interval, then registers a fresh handle, so exactly one interval is live |
| Carousel.Slider.AutoAdvance | scroll-controls.js:106 | the interval firing is one `next`: the page count re-read from the layout, the forward step, the scroll offset of the new page and the dots synced, with the same interval kept |
| Carousel.Slider.PrevButton | scroll-controls.js:114 | one `prev` (page count re-read, backward step, its scroll offset, dots synced), then auto-advance restarted: the old interval cleared and a fresh handle the only live one |
| Carousel.Slider.NextButton | scroll-controls.js:115 | one `next` (page count re-read, forward step, its scroll offset, dots synced), then auto-advance restarted: the old interval cleared and a fresh handle the only live one |
| Carousel.Slider.DotClick | scroll-controls.js:66 | `goTo(i)`: page count re-read, index `i` wrapped, its scroll offset, dots synced, and the interval left as it was |
| Carousel.Slider.TouchStart | scroll-controls.js:123-126 | records the start x and stops auto-advance (this is also the `mouseenter` handler's effect) |
| Carousel.Slider.TouchEnd | scroll-controls.js:127-133 | exactly one `next` or `prev` by the swipe rule (new index, its scroll offset and synced dots), or nothing at all; then auto-advance restarted with a fresh handle as the only live interval |
| Carousel.Slider.Resize | scroll-controls.js:136-139 | dots rebuilt for the new page count, index 0, scroll offset 0, whatever the previous page |
| Marks.OneHotCount | scroll-controls.js:71-74 | a dot strip synced to an index has exactly one active dot when the index is within the strip, and none otherwise |
| Text.IsJsWhitespace | script.js:152-154 | the `\s` and `trim` character set; none of it is '@' or '.', the two literals of the email pattern |
| Text.Trim | script.js:152-154 | a contiguous middle part of the input with only whitespace dropped before and after it, neither starting nor ending with whitespace |
| Text.TrimStart | script.js:152-154 | a suffix of the input; every dropped character is whitespace, and the result does not start with whitespace |
| Text.TrimEnd | script.js:152-154 | a prefix of the input; every dropped character is whitespace, and the result does not end with whitespace |
| Text.TrimEmptyIffBlank | script.js:152-157 | a trimmed field is empty exactly when the raw field is empty or all whitespace |
| Text.ValidEmail | script.js:184-186 | `validateEmail` accepts exactly the language of `^[^\s@]+@[^\s@]+\.[^\s@]+$` |
| Text.ShapeIffPattern | script.js:185 | the scan (no whitespace, one '@' with a non-empty part before it, and after it a '.' with at least one character on each side, more dots allowed) holds exactly for the regular expression's language |
| Text.ShapeMatches | script.js:185 | every string the scan accepts matches the regular expression |
| Text.PatternHasShape | script.js:185 | every string the regular expression matches passes the scan |
| Text.IndexOf | script.js:185 | the first occurrence of a character, or none exactly when it does not occur |
| Site.LastCovering | script.js:73-86 | none exactly when no section satisfies `top ≤ pos < top + height`; otherwise a covering section with no covering section after it in document order |
| Site.LinksFor | script.js:79-84 | link `i` is marked exactly when its href is `#id` |
| Site.ActiveAfterScroll | script.js:73-86 | the active marks after the update keep one mark per link |
| Site.ActiveLinkIsLastCovering | script.js:73-86 | with no section covering the position the marks are unchanged; otherwise they are exactly the links to the last covering section in document order |
| Site.LinksForCount | script.js:79-84 | with distinct hrefs, one link is active if some link targets the section, and none otherwise |
| Site.ActiveAfterScrollIdempotent | script.js:469-473 | running the active-link update twice at the same position equals running it once, so the debounced re-run changes nothing |
| Site.FindById | script.js:18-19 | `getElementById`: the first element with that id in document order; none for the empty id or when no element has the id |
| Site.ClickTarget | script.js:12-21 | a click is handled exactly when the href starts with '#' and names an existing element: a '#' link's target is `getElementById` of the rest of the href, and any other link is not handled |
| Site.Check | script.js:152-165 | an accepted form has no blank name or message and a trimmed email in the regular expression's language |
| Site.CheckOrder | script.js:152-165 | "fill in all fields" exactly when some field is empty or blank, whatever the email; "invalid email" exactly when no field is blank and the trimmed email fails the pattern; acceptance implies the pattern holds |
| Site.Page.NavClick | script.js:11-39 | when handled: the menu checkbox is unchecked, the scroll target is `offsetTop - navHeight`, and the clicked link is the only active one; otherwise nothing changes |
| Site.Page.UpdateActiveNav | script.js:69-87 | the links become those for the last section covering `pageYOffset + 100`, or stay unchanged when none covers it |
| Site.Page.OnScroll | script.js:50-64 | heavy shadow iff `pageYOffset > 50`, the active links updated, and `lastScroll` recorded; the scroll-to-top listener (script.js:402-410) shows the button iff `> 300`, so the button never shows without the shadow |
| Site.Page.ShowNotification | script.js:192-221 | the old notification is removed before the new one is appended, so exactly the new one is on screen |
| Site.Page.Submit | script.js:148-171 | a blank field shows the fill-in error and stops; otherwise a bad email shows the email error and stops; neither enters the sending state; an accepted form enters it without a new notification |

## Left out

- DOM construction and styling are not modelled. This covers the wrapper, the buttons, the aria labels, `innerHTML` and `cssText`, the keyframe injection (script.js:480-544) and the console messages. They create elements and have no rule beyond that.
- Elapsed time is not modelled. The interval is only a handle, so the 3000 ms period, the 1500 ms simulated send and its completion (script.js:174-179), the notification's automatic removal after 4 s, and `debounce`'s delay are absent. The debounced second call of `updateActiveNav` is covered by `ActiveAfterScrollIdempotent`.
- Site.Page.ShowNotification: the invariant "at most one notification" is stated only under the operations modelled here. Timed removal is not modelled.
- Browser services are taken as integer inputs. These are `offsetTop`, `offsetHeight`, `offsetWidth`, `pageYOffset`, `innerWidth`, the touch `clientX` and the parsed computed gaps (`None` for NaN). Fractional pixel values, `parseFloat` itself and smooth-scroll animation are not modelled. A scroll is recorded only as its target.
- The `IntersectionObserver` reveal animations, the hero parallax (floating point, script.js:363-372), the lightbox, the ripple, image fade-in, and hover and focus effects are not modelled. They are presentation only.
- Closing the mobile menu on an outside click (script.js:351-360) is not modelled. `e.preventDefault()` on submit and on anchor clicks is not modelled either, because both affect only the browser's default navigation.
- `mouseenter` and `mouseleave` on the wrapper (scroll-controls.js:118-119) are exactly `StopAuto` and `StartAuto`, so they have no members of their own.
- `initSlider` on a missing grid returns without doing anything, so no `Slider` is built. The two calls at page load (scroll-controls.js:147-150) are two independent `Slider` instances.
- Carousel.Slider.BuildDots: each dot's click listener is represented by `DotClick`, not stored with the dot.
- Dafny strings are sequences of Unicode code points, while JavaScript strings are sequences of UTF-16 code units. A lone surrogate cannot be represented. No whitespace character and none of the pattern's literals is a surrogate, so `trim` and the email pattern are unaffected.
- A nav link without an `href` attribute is not modelled, because `hrefs` are strings. The source would throw on `null.startsWith` there.
