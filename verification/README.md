# La Famille Tattoo: the page's state logic

A model of the behaviour under the markup of the studio's single-page site
(`src/App.jsx`). It covers the five pieces of state logic the page has:

- **`RevealOnScroll`** (module `Reveal`): a wrapped element is hidden until its
  first intersecting observation. That observation reveals it and disconnects
  the observer. Unmount disconnects it too.
- **The scroll flag and the mobile menu** (module `Navigation`, class `NavBar`):
  `isScrolled` is recomputed as `scrollY > 50` on every scroll event. Both the
  compact navbar and the back-to-top button read it. The menu button flips
  `isMobileMenuOpen`, and every jump to a section clears it.
- **The developer popup** (module `Popup`, class `DevPopup`): two independent
  booleans, `showDevPopup` and `minimizeDevPopup`. They are set by a 4000 ms
  timer, a 9000 ms timer, the X button and the minimized icon. Unmount clears
  both timers.
- **The quote form** (module `Contact`, class `ContactForm`): the draft object
  `formData`, updated one named entry at a time, and the `hasFile` flag, which
  can only be set.
- **The WhatsApp hand-off** (modules `WhatsApp` and `UriComponent`): the
  message is a fixed greeting, four labelled lines and an optional
  reference-photo line. It is percent-encoded as `encodeURIComponent` does
  (ECMA-262, section 19.2.6, URI Handling Functions: the UTF-8 octets of every
  character outside `A-Z a-z 0-9 - _ . ! ~ * ' ( )`, written `%XY`). It is then
  appended to `https://wa.me/5584998979050?text=`.

The component `App` keeps all its state in one function component. Here that
state is split into three classes by concern (`NavBar`, `ContactForm`,
`DevPopup`). Their fields never interact in the source.

Browser events are inputs to the methods. `RevealOnScroll`, `NavBar` and
`DevPopup` also have a pure `Step`/`Run` function over a sequence of events;
each of their methods' `ensures` ties the new state to `Step`, and the lemmas
about whole event sequences are stated over `Run`. `ContactForm`'s handlers are
tied to `SetField` (the object spread) and `Picked` (one file pick), and
`AfterPicks` folds `Picked` over a series of picks.

An event is delivered only when the browser would deliver it:
- an observer callback only while the observer is connected;
- a timer callback only while the timer is armed (at most once, never after `clearTimeout`);
- a popup button click only while that button is rendered.

Each encoder has a partner it is proved against:
- `ParseMessage` reads a message back into its fields;
- `DecodeURIComponent` is the standard's inverse of `encodeURIComponent`;
- `TextParameter` extracts and decodes the text of a link.

The model follows the code as written:
- The popup is two independent booleans. The 9000 ms timer sets
  `minimizeDevPopup` unconditionally, so a user who closes the popup and
  expands it again before 9000 ms sees it collapse when the timer fires
  (`Popup.LateTimerCollapses`).
- The comment above the back-to-top button (src/App.jsx:588) speaks of a
  500 px threshold. The button reads `isScrolled`, whose threshold is 50 px.

## Model

| member | source | states |
|---|---|---|
| `Reveal.RevealOnScroll.constructor` | src/App.jsx:14-29 | after mount the element is hidden, and it is observed exactly when its ref is attached |
| `Reveal.RevealOnScroll.OnEntry` | src/App.jsx:19-24 | an intersecting entry while observing sets `isVisible` and disconnects; a non-intersecting entry changes nothing |
| `Reveal.RevealOnScroll.Unmount` | src/App.jsx:31 | unmount disconnects the observer and leaves `isVisible` unchanged |
| `Reveal.VisibleStaysVisible` | src/App.jsx:14-31 | once `isVisible` is true, no sequence of events makes it false again |
| `Reveal.DisconnectedIsFinal` | src/App.jsx:23-31 | after a disconnect (by reveal or by unmount) no event changes the state |
| `Reveal.RevealsAtMostOnce` | src/App.jsx:19-24 | over any event sequence, `isVisible` flips from false to true at most once |
| `Reveal.VisibleIffIntersected` | src/App.jsx:17-32 | from mount, the element ends visible iff its ref is attached and an intersecting entry arrives before unmount; the first observation suffices, no scroll needed |
| `Navigation.IsScrolled` | src/App.jsx:76 | definition: the page counts as scrolled when `scrollY` is strictly above `ScrollThreshold` (50 px); fractional offsets included |
| `Navigation.NavBar.NavbarCompact` | src/App.jsx:174-178 | definition: the navbar takes its compact style exactly when `isScrolled` holds |
| `Navigation.NavBar.BackToTopVisible` | src/App.jsx:591-593 | definition: the back-to-top button is visible exactly when `isScrolled` holds, the same flag as the navbar |
| `Navigation.NavBar.MobileMenuRendered` | src/App.jsx:215 | definition: the overlay menu is rendered exactly when `isMobileMenuOpen` holds |
| `Navigation.NavBar.constructor` | src/App.jsx:54-55 | the page starts not scrolled, with the mobile menu closed |
| `Navigation.NavBar.HandleScroll` | src/App.jsx:73-80 | a scroll event sets `isScrolled` to `scrollY > 50`; the compact navbar and the back-to-top button both equal it; the menu is untouched |
| `Navigation.ScrollBoundary` | src/App.jsx:76 | the threshold is strict: 50 gives false, 50.5 and 51 give true |
| `Navigation.FlagFollowsLastScroll` | src/App.jsx:73-80 | after any events the flag is `IsScrolled` of the last scroll offset seen (initial flag if none): no hysteresis, other events do not touch it |
| `Navigation.NavBar.ToggleMobileMenu` | src/App.jsx:208 | the menu button negates `isMobileMenuOpen` and leaves the scroll flag |
| `Navigation.NavBar.ScrollToSection` | src/App.jsx:103-104 | jumping to a section always closes the menu, so the overlay is not rendered |
| `Navigation.MenuParity` | src/App.jsx:208 | with no section jump, the menu ends open iff it started open xor an odd number of toggles occurred |
| `Navigation.MenuOpenAfter` | src/App.jsx:103-104 | the menu ends open iff an odd number of toggles followed the last section jump |
| `Contact.SetField` | src/App.jsx:123 | the spread update sets the named entry to the new value, adds no other key and keeps every other entry |
| `Contact.ContactForm.constructor` | src/App.jsx:58-64 | the draft starts with the four fields empty and no file |
| `Contact.ContactForm.HandleInputChange` | src/App.jsx:122-124 | a keystroke replaces exactly the named entry, keeps the other fields and `hasFile`, and keeps all four fields present |
| `Contact.ContactForm.HandleFileChange` | src/App.jsx:127-131 | `hasFile` becomes true when the pick is non-empty and otherwise keeps its value; the draft is untouched |
| `Contact.Picked` | src/App.jsx:128-130 | definition: after one pick the flag is its old value or whether the pick held at least one file |
| `Contact.FileFlagSticks` | src/App.jsx:127-131 | after a series of picks `hasFile` holds iff it held before or some pick was non-empty: nothing clears it |
| `Contact.ContactForm.HandleWhatsAppSubmit` | src/App.jsx:134-153 | the message built by successive appends is the template filled from the draft; the link starts with the fixed prefix and its text parameter decodes to that message |
| `WhatsApp.Message` | src/App.jsx:138-146 | the template: the message opens with the greeting and the name line, and ends with the photo line's `)` when a file was picked, with the tamanho line's line break otherwise |
| `WhatsApp.WhatsAppUrl` | src/App.jsx:148-152 | the link opens with `https://wa.me/5584998979050?text=` and is at least as long as the prefix and the message together |
| `WhatsApp.MessageRoundTrip` | src/App.jsx:138-146 | for line-free fields the message parses back to the same four fields in order and the same photo flag |
| `WhatsApp.PhotoLineIffFile` | src/App.jsx:144-146 | the message ends with the reference-photo line iff `hasFile` holds |
| `WhatsApp.ExampleMessage` | src/App.jsx:138-142 | Ana / Realismo / Braço / 15cm without a file gives the greeting and the four lines only |
| `WhatsApp.UrlRoundTrip` | src/App.jsx:148-152 | the link is the fixed prefix followed by a component that decodes to the message |
| `WhatsApp.SingleTextParameter` | src/App.jsx:149-152 | after the prefix the link holds no `&`, `#`, `=`, `?`, `/` or space, so `text` is its one query parameter |
| `WhatsApp.SubmissionDeterminesQuote` | src/App.jsx:138-152 | equal links come only from equal quotes (line-free fields) |
| `UriComponent.EncodeURIComponent` | src/App.jsx:149 | the encoding holds only unreserved characters and `%`; it is at least as long as the input and at most twelve times as long (four octets of three characters each) |
| `UriComponent.UnreservedUnchanged` | src/App.jsx:149 | a string of unreserved characters is its own encoding |
| `UriComponent.Utf8RoundTrip` | src/App.jsx:149 | every character's UTF-8 octets decode back to it |
| `UriComponent.DecodeEncode` | src/App.jsx:149 | `decodeURIComponent(encodeURIComponent(s)) == s` for every string |
| `UriComponent.EncodeInjective` | src/App.jsx:149 | different strings have different encodings |
| `Popup.ViewOf` | src/App.jsx:534-566 | definition: nothing is rendered unless mounted and `showDevPopup`; then the icon when `minimizeDevPopup`, the full popup otherwise |
| `Popup.DevPopup.constructor` | src/App.jsx:67-92 | after mount both flags are false, both timers are armed and nothing is rendered |
| `Popup.DevPopup.OnShowTimer` | src/App.jsx:85-87 | the armed show timer sets `showDevPopup` and is spent; `minimizeDevPopup` is untouched |
| `Popup.DevPopup.OnMinimizeTimer` | src/App.jsx:90-92 | the armed minimize timer sets `minimizeDevPopup` whatever its value, and is spent; `showDevPopup` is untouched |
| `Popup.DevPopup.OnCloseClick` | src/App.jsx:551 | the X of the full popup sets `minimizeDevPopup`, turning the popup into the icon |
| `Popup.DevPopup.OnExpandClick` | src/App.jsx:541 | the icon clears `minimizeDevPopup`, bringing back the full popup |
| `Popup.DevPopup.OnUnmount` | src/App.jsx:94-97 | the cleanup disarms both timers and keeps both flags |
| `Popup.OnlyShowTimerShows` | src/App.jsx:85-87 | `showDevPopup` after any event is its old value, or true when the event is the armed show timer |
| `Popup.ShownStaysShown` | src/App.jsx:85-87 | once shown, the popup stays shown under any event sequence |
| `Popup.HiddenRendersNothing` | src/App.jsx:534-538 | while `showDevPopup` is false nothing is rendered, whatever `minimizeDevPopup` holds |
| `Popup.MinimizeIsIdempotent` | src/App.jsx:90-92 | the timer and the close click set `minimizeDevPopup`; on a minimized popup they change neither flag nor the view |
| `Popup.ExpandRestores` | src/App.jsx:541 | clicking the icon clears `minimizeDevPopup` and shows the full popup |
| `Popup.LateTimerCollapses` | src/App.jsx:90-92 | close, expand, then the 9000 ms timer: the popup is collapsed again |
| `Popup.FrozenAfterUnmount` | src/App.jsx:94-97 | after unmount no event sequence changes anything |
| `Popup.Timeline` | src/App.jsx:83-92 | with no user action, nothing is rendered before 4000 ms, the full popup from 4000 ms, the icon from 9000 ms |
| `Popup.DismissBeforeTimer` | src/App.jsx:89-92 | a user who minimizes after the show timer sees no change when the 9000 ms timer fires |

## Left out

- Rendering: JSX, Tailwind classes, inline styles, static text, the gallery list, social links and the footer year. Only the booleans that choose what is rendered are modelled. This includes the `delay` prop of `RevealOnScroll`, which only sets a CSS transition delay.
- IntersectionObserver geometry (the 10% threshold): only the `isIntersecting` boolean of a callback is modelled. Only the first entry of a callback's batch is modelled, as the source destructures `[entry]`.
- Wall-clock time: `setTimeout`/`clearTimeout` become armed flags and discrete firing events. `Popup.TimerEventsBy` orders the two firings by their delays.
- Browser I/O: `addEventListener`/`removeEventListener` for scroll, `window.open`, `window.scrollTo` (including the back-to-top click), `document.getElementById` and `e.preventDefault`. `HandleWhatsAppSubmit` returns the link instead of opening it. The scroll listener's removal on unmount has no observable state and is not modelled.
- `Navigation.NavBar.ScrollToSection`: the pixel arithmetic of the smooth scroll works on floating-point `getBoundingClientRect` values and is not modelled; only its menu-closing effect is.
- Native `required` validation of the four inputs. The submit handler accepts any draft, empty fields included.
- `UriComponent.EncodeURIComponent`: the URIError that `encodeURIComponent` throws for a lone UTF-16 surrogate is not modelled, because a Dafny `char` is a Unicode scalar value and cannot be a lone surrogate.
- `WhatsApp.MessageRoundTrip`, `WhatsApp.SubmissionDeterminesQuote`: stated for fields without line breaks only. A `type="text"` input strips line breaks from its value, so the form cannot produce others.
- React scheduling: batching, StrictMode's double effects and re-renders. The handlers read the state of the render they were created in; each handler here sees the current fields, which is the same whenever a render happens between two events.
