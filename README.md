# Park site front end and template path rewriter, in Dafny

This project models the logic of a small park website:

- the newer front-end script `static/js/script.js`;
- the older front-end script `script.js`;
- the path rewriter inside `update_html_paths` in `update_paths.py`.

For the two scripts it models the contact-form checks and the carousels:

- the background slideshow;
- the per-gallery auto-slide interval with its `currentMedia` counter;
- the arrows (`changeImage`) and the dots (`goToImage`);
- in the newer script, the `played` flag of the video gallery that gates the rotation of gallery `'1'`.

It also models:

- the photo lightbox with its wrap-around navigation and `i / n` counter;
- the contact and text modals, with their shared `isModalOpen` flag;
- the mobile menu;
- the document-wide Escape key and click listeners;
- the header's scroll rule;
- the newer script's data-saving `data-src` rewrite.

The path rewriter takes a template's text. It turns relative `./css/`, `./js/` and `./images/` references into Flask `url_for('static', filename=...)` expressions, then closes them.

## How the model is built

Page elements are abstracted:

- A row of carousel items (slides, images, videos, dots) is an `array<bool>` of `active` flags.
- The overlays and the lightbox are fields of a `Page` object.
- The newer script's `STATE` object is the `Site.State` class. Its fields are updated in place.
- The older script's `STATE` uses the first four of those fields.
- Timers are explicit calls: `GalleryTick` is one firing of a gallery's interval, and the counter is kept in the interval's `Timer`.
- The outcome of `video.play()` is an input (`Slider.PlayOutcome`), and so is the settled `/gallery-data` request (`Lightbox.Response`).

JavaScript details are kept where they matter:

- String lengths are UTF-16 code units (`Text.Utf16Length`).
- Numbers are rendered the way template literals render them (`Text.Decimal`).
- Each `re.sub` with a literal pattern and each `str.replace` is a left-to-right, non-overlapping replace-all (`Text.ReplaceAll`).
- `String.prototype.replace` with a string pattern replaces the first occurrence only (`Text.ReplaceFirst`).
- Every index passed to `%` is non-negative, so JavaScript's `%` and Dafny's `%` agree there.

The older script guards nothing:

- An index with no item behind it makes the step throw a `TypeError` part-way.
- The dots are looked up beside the gallery and their number is never compared with the number of images, so a missing dot throws too, after the image beside it has changed.
- Its methods model that path instead of demanding a precondition: the flags are left as they were at the throw, and the rest of the step does not happen.
- Its `goToImage` with an index out of range leaves every image and dot cleared and does not restart the interval.
- Its `changeImage` with no active image changes nothing.
- Its `openMediaPopup` with an index past the catalog stores the index but does not show the lightbox.

Both scripts can show two active items after a manual step. Every restart resets the counter to 0, and the next firing clears only the item the counter points at. The model therefore states per-step frame conditions instead of an "exactly one active" invariant. `Slider.JumpThenTickShowsTwo` and `LegacySlider.JumpThenTickShowsTwo` exhibit the case.

The rotation as the code does it:

- A jump to an index out of range does not wrap. It leaves nothing active in the newer script and throws in the older one.
- A tick does not guarantee a single active item.
- `fallbackToImages` keeps the video's `active` class. For gallery `'1'` it does not resume the rotation while the video has not been played, because `startGalleryAutoSlide` returns before doing anything.
- The older script has no empty-gallery guard.

## Model

| member | source | states |
|---|---|---|
| ContactForm.ValidateForm | static/js/script.js:719-740 | accepted iff name, phone and message are non-empty, the phone matches the pattern and the UTF-16 length is 10..1000; each error kind is reported exactly in its case: a missing field first, then a bad phone on a filled form, then a bad length on a filled form with a valid phone |
| ContactForm.PatternIsPrefixAndTenDigits | static/js/script.js:5 | `^\+7\d{10}$` holds exactly for 12 characters: `+7` followed by ten ASCII digits |
| ContactForm.MessageBoundsInCharacters | static/js/script.js:734 | for text inside the Basic Multilingual Plane the length bounds are 10..1000 characters; any accepted message has 5..1000 characters |
| ContactForm.CheckPhoneField | static/js/script.js:686-705 | the phone is valid iff the element is missing, the value is empty, or it matches the pattern |
| ContactForm.CheckPhoneValue | script.js:337-350 | the phone is valid iff the value is empty, or has 12 characters: `+7` followed by ten ASCII digits |
| ContactForm.PhoneChecksAgree | script.js:337-373 | on a filled-in form, `validateForm` rejects the phone exactly when `validatePhone` marks it invalid |
| ContactForm.PrefixPhoneField | static/js/script.js:680-684 | a missing element stays missing, an empty field gets `+7`, any other value is kept |
| ContactForm.PrefixPhoneValue | script.js:331-335 | an empty value becomes `+7`, any other value is kept, and the result is never empty |
| ContactForm.PrefixPhoneIdempotent | static/js/script.js:680-684 | writing the prefix twice gives the same field as writing it once |
| ContactForm.PrefixThenTenDigitsIsValid | static/js/script.js:680-705 | the prefix followed by ten typed digits passes the pattern and the live check |
| ContactForm.CounterFor | script.js:352-358 | the counter text splits into a digit string that reads back as the UTF-16 length and the suffix `/1000`; it is red iff the length exceeds 1000 |
| ContactForm.CounterForField | static/js/script.js:707-717 | nothing is shown without a message element; otherwise the counter of `CounterFor` |
| ContactForm.CounterTextShowsLength | static/js/script.js:715 | two messages show the same counter text iff their lengths are equal |
| Text.ReplaceFirstAt | static/js/script.js:1318 | a string-pattern `replace` substitutes the first occurrence and keeps the text around it |
| Text.ReplaceAllSelf | update_paths.py:9 | replacing a string by itself changes nothing |
| Text.Utf16LengthBounds | static/js/script.js:713 | the JavaScript length lies between the number of characters and twice that, and equals it inside the Basic Multilingual Plane |
| Text.DecimalRoundTrip | static/js/script.js:1044 | a rendered number is a non-empty digit string with no leading zero that reads back as the number |
| Ring.Next | static/js/script.js:439 | `(i + 1) % n` is below n, is `i + 1` before the last index and 0 at it |
| Ring.Prev | static/js/script.js:1067 | `(i - 1 + n) % n` is below n, is `i - 1` after index 0 and `n - 1` at it |
| Ring.PrevNext | static/js/script.js:1056-1069 | a step back undoes a step forwards |
| Ring.NextPrev | static/js/script.js:1056-1069 | a step forwards undoes a step back |
| Ring.FullCycle | static/js/script.js:1056-1061 | n steps forwards from an index below n come back to it |
| Flags.FirstActive | static/js/script.js:534 | `findIndex` over the flags: the first active index with none before it, or -1 iff none is active |
| Flags.OnlyAtCountsOne | static/js/script.js:570-577 | a row with only item k active has exactly one active item |
| Flags.TwoActiveCount | static/js/script.js:496-504 | two distinct active items make the count at least two |
| Flags.ClearAll | static/js/script.js:570 | the `forEach` that removes `active` leaves every flag off |
| Slider.FirstOf | static/js/script.js:402 | `querySelector` for a kind: the first item of that kind, or -1 iff there is none |
| Slider.TickFlags | static/js/script.js:496-512 | a firing clears slot c and shows slot c+1 mod n: an image becomes active and the first video loses `active`, other slots unchanged; a video slot makes the first video the only active item when it has a state |
| Slider.ChangeFrom | static/js/script.js:534-537 | `changeImage` leaves the first active item, or item 0 when none is active |
| Slider.ChangeFlags | static/js/script.js:537-550 | on an image slot, exactly the left slot is cleared and the target set; on a video slot, the first video alone is active when it has a state |
| Slider.JumpFlags | static/js/script.js:570-579 | an index out of range leaves nothing active; an image index leaves exactly that item; a video index leaves only the first video when it has a state |
| Slider.AfterPlay | static/js/script.js:261-306 | the video counts as played iff it already was or an attempt (direct or muted retry) resolved; time and visibility unchanged |
| Slider.RotationGate | static/js/script.js:463-468 | after a restart, a failed retry or no promise, gallery '1' waits; after a successful play or `ended` it rotates; no other gallery ever waits |
| Slider.SetupVideoState | static/js/script.js:197-211 | a gallery with a video gets the state `{played: false, currentTime: 0, isVisible: false}`; others are untouched |
| Slider.RestartVideo | static/js/script.js:398-422 | with a video and a state, the state is reset and the first video is the only active item; otherwise nothing changes |
| Slider.SettlePlay | static/js/script.js:261-306 | a settled attempt updates the state by `AfterPlay`; a gallery without a state is untouched |
| Slider.HandleGalleryVisible | static/js/script.js:249-259 | an attempt starts iff there is a state, it is not played, some video is active and the ratio exceeds 0.3 |
| Slider.HandleGalleryHidden | static/js/script.js:308-317 | an inactive video's position is stored in its state; otherwise nothing changes |
| Slider.HandleVideoEnded | static/js/script.js:319-334 | the state becomes played with position 0 |
| Slider.FallbackToImages | static/js/script.js:341-351 | with a video and images, the video is hidden and the first image made active; then the rotation restart of `StartedTimers` |
| Slider.BackgroundTick | static/js/script.js:433-442 | the slide index advances by `Next` and only the old and new slide flags change; the older script's `initBackgroundSlider` (script.js:145-154) runs the same step every 10 s |
| Slider.StartGalleryAutoSlide | static/js/script.js:461-516 | gallery '1' waiting for its video and an empty gallery keep their interval; otherwise the interval is replaced with the gallery's period and counter 0 |
| Slider.InitGallerySlider | static/js/script.js:444-459 | the reviews carousel and galleries without a video start rotating on load; galleries with a video do not |
| Slider.GalleryTick | static/js/script.js:486-512 | a waiting gallery '1' is untouched; otherwise the flags become `TickFlags`, the counter moves by `Next` and a video slot restarts the video state |
| Slider.ChangeImage | static/js/script.js:525-559 | no-op on an empty gallery; otherwise the flags become `ChangeFlags` and the interval restarts |
| Slider.GoToImage | static/js/script.js:561-588 | no-op on an empty gallery; otherwise the flags become `JumpFlags`; the interval restarts except for the reviews carousel with an index out of range, where the emoji update throws first |
| Slider.ChangeRoundTrip | static/js/script.js:537-550 | with one image active and an image next to it, a step forwards then back restores the flags |
| Slider.ChangeWraps | static/js/script.js:542 | a step back from item 0 shows the last item |
| Slider.JumpThenTickShowsTwo | static/js/script.js:475-504 | a jump to item 2 followed by one firing leaves items 1 and 2 both active |
| Slider.TickMovesSingleImage | static/js/script.js:496-504 | on a gallery of images, a firing from the counter's own image leaves exactly the next image active |
| Slider.TicksFromSingle | static/js/script.js:486-512 | k firings from the counter's own image show the image k steps on |
| Slider.RotationCycle | static/js/script.js:486-512 | a gallery of n images comes back to its starting image after n firings |
| Lightbox.Entry | static/js/script.js:997-1001 | the entry's source is `/static/` followed by the record's path, and its description is the record's, or the default when that is empty |
| Lightbox.Catalog | static/js/script.js:961-1002 | no array gives an empty catalog; otherwise one entry per record, in order |
| Lightbox.CounterTextShowsPosition | static/js/script.js:1044 | two positions show the same `i / n` counter iff they are equal |
| Lightbox.RenderGallery | static/js/script.js:961-1002 | `STATE.galleryData` becomes the catalog of the records |
| Lightbox.ShowError | static/js/script.js:1004-1019 | `STATE.galleryData` becomes empty |
| Lightbox.LoadGalleryData | static/js/script.js:934-959 | a successful response with an array is rendered; a failure or any other response empties the catalog |
| Lightbox.UpdatePopupMedia | static/js/script.js:1031-1045 | shows the entry at the index and its counter; no entry there leaves the lightbox as it was |
| Lightbox.OpenMediaPopup | static/js/script.js:1021-1028 | no-op on an empty catalog; otherwise the index is stored, the lightbox shown and scrolling locked, with the entry, description and counter shown when the index has an entry and the popup's content kept when it has none |
| Lightbox.CloseMediaPopup | static/js/script.js:1048-1053 | the lightbox is hidden and the overflow cleared |
| Lightbox.NextMedia | static/js/script.js:1056-1061 | no-op on an empty catalog, popup content included; otherwise the index moves by `Next` and the entry, its description and its counter are shown |
| Lightbox.PrevMedia | static/js/script.js:1064-1069 | no-op on an empty catalog, popup content included; otherwise the index moves by `Prev` and the entry, its description and its counter are shown |
| Lightbox.HandlePopupKey | static/js/script.js:920-932 | only while the lightbox is shown: Escape closes it, the right arrow steps forwards and the left arrow back, showing the new entry; any other case keeps the index and the popup's content |
| Lightbox.BrowsingWrapsAround | static/js/script.js:1056-1069 | prev undoes next, next undoes prev, and n nexts come back to the same entry and counter |
| Lightbox.StepChangesCounter | static/js/script.js:1044-1061 | a step forwards changes the counter unless the catalog has a single entry |
| Overlays.OpenModal | static/js/script.js:607-616 | refused while any modal is open; otherwise the contact modal is shown and scrolling locked; the modals stay consistent; the older `openModal` (script.js:276-283) is the same step |
| Overlays.CloseModal | static/js/script.js:618-625 | the contact modal is hidden, the overflow cleared and the shared flag cleared |
| Overlays.OpenTextModal | static/js/script.js:627-641 | refused while any modal is open; otherwise the title and body are written and the text modal shown; the modals stay consistent; the older `openTextModal` (script.js:292-301) is the same step |
| Overlays.CloseTextModal | static/js/script.js:643-650 | the text modal is hidden, the overflow cleared and the shared flag cleared |
| Overlays.OpenMobileMenu | static/js/script.js:167-172 | the menu and burger become active, scrolling locked, the flag set |
| Overlays.CloseMobileMenu | static/js/script.js:174-179 | the menu and burger lose `active`, the overflow is cleared, the flag cleared |
| Overlays.ToggleMobileMenu | static/js/script.js:159-165 | the flag flips, and the classes and overflow follow it |
| Overlays.CloseAllModals | static/js/script.js:652-657 | both modals, the lightbox and the menu end closed, with the overflow cleared |
| Overlays.PressKey | static/js/script.js:151-155 | Escape closes every overlay and keeps the lightbox index and content; other keys leave the overlays alone, and the arrows move an open lightbox over a non-empty catalog and show the new entry (listeners at 151, 600 and 921) |
| Overlays.Click | static/js/script.js:659-669 | a click outside the menu closes an open menu; a click on a backdrop closes that overlay; the modals stay consistent (listeners at 142-149, 914-918 and 1262) |
| Overlays.HeaderFor | static/js/script.js:841-852 | `scrolled` iff the offset exceeds 100; `hidden` iff it also exceeds the previous offset, so a hidden header always has its background |
| Overlays.Header.OnScroll | static/js/script.js:837-855 | the classes become `HeaderFor(last, top)` and the remembered offset becomes `top` |
| SaveData.SaveDataSrc | static/js/script.js:1316-1319 | the rewritten `data-src` has the same length as the original |
| SaveData.NoWebpExtensionKept | static/js/script.js:1317-1319 | a value without `.webp` is kept even when it mentions `webp` |
| SaveData.FirstWebpBecomesJpeg | static/js/script.js:1318 | exactly the first `.webp` of a value becomes `.jpeg`; the text before and after it is kept |
| SaveData.EnableSaveDataMode | static/js/script.js:1306-1321 | every video loses `autoplay` and every `data-src` becomes `SaveDataSrc` of its old value |
| LegacySlider.StartGalleryAutoSlide | script.js:169-208 | the interval is always replaced with counter 0 and the period (3000 ms for reviews, 10000 ms otherwise) |
| LegacySlider.GalleryTick | script.js:187-199 | with no image at the counter nothing changes; with no dot there only image c is cleared; otherwise image and dot c are cleared, the counter moves by `Next` and the next image is set, and the next dot when it exists; images and dots in step stay in step |
| LegacySlider.ChangeImage | script.js:217-244 | with no active image nothing changes; with no dot at it only the image is cleared; otherwise the image moves one step, and the dot and the restart follow only when the target dot exists; images and dots in step stay in step |
| LegacySlider.GoToImage | script.js:246-266 | everything is cleared; an index with an image and a dot shows exactly those and restarts the interval; an image without a dot is shown and nothing restarts; with as many dots as images they end in step |
| LegacySlider.StepKeepsOneActive | script.js:188-194 | a step from the single active image leaves exactly one image active |
| LegacySlider.ArrowsRoundTrip | script.js:226-236 | a step forwards and one back restore a single active image |
| LegacySlider.JumpThenTickShowsTwo | script.js:176-194 | after a jump to image 2 the next firing leaves images 1 and 2 both active |
| LegacyLightbox.GalleryManager.UpdatePopupMedia | script.js:642-662 | `ok` iff the index has an entry; then the entry and the `i / 12` counter are shown, otherwise nothing changes |
| LegacyLightbox.GalleryManager.OpenMediaPopup | script.js:634-639 | the index is stored unchecked; with an entry there, the lightbox is shown with the photo, its description and counter and scrolling locked; past the catalog the lightbox and its content are kept |
| LegacyLightbox.GalleryManager.CloseMediaPopup | script.js:665-669 | the lightbox is hidden and the page gets `overflow: auto` |
| LegacyLightbox.GalleryManager.NextMedia | script.js:672-675 | the index moves by `Next` modulo 12 and the photo, its description and its counter are shown |
| LegacyLightbox.GalleryManager.PrevMedia | script.js:678-681 | the index moves by `Prev` modulo 12 and the photo, its description and its counter are shown |
| LegacyLightbox.GalleryManager.HandlePopupKey | script.js:620-630 | only while the lightbox is shown: Escape closes it, the arrows step through the catalog and show the new photo; any other case keeps the index and the popup's content |
| LegacyLightbox.BrowsingCycles | script.js:672-681 | twelve nexts are the identity, prev undoes next, and every step changes the counter |
| LegacyOverlays.CloseModal | script.js:285-290 | the contact modal is hidden, the page gets `overflow: auto`, the shared flag cleared |
| LegacyOverlays.CloseTextModal | script.js:303-308 | the text modal is hidden, the page gets `overflow: auto`, the shared flag cleared |
| LegacyOverlays.CloseMobileMenu | script.js:129-134 | the menu closes and the page gets `overflow: auto` |
| LegacyOverlays.ToggleMobileMenu | script.js:114-120 | the flag flips; opening locks scrolling, closing gives `overflow: auto` |
| LegacyOverlays.PressKey | script.js:845-851 | Escape closes the modals and the lightbox only while a modal is open; otherwise only the lightbox's own listener acts, the arrows stepping an open lightbox modulo 12; Escape, other keys and a hidden lightbox keep the index and content; the menu ignores keys |
| LegacyOverlays.Click | script.js:310-320 | the lightbox backdrop closes the lightbox; a click outside the menu and burger closes an open menu; a modal backdrop closes that modal (listeners at 103-110, 613-617 and 810) |
| LegacyOverlays.OnScroll | script.js:457-474 | only `hidden` changes, by the same rule as the newer header, and the offset is remembered |
| PathRewriter.RewriteSourcesRemovesRelativePrefixes | update_paths.py:8-19 | none of the seven relative prefixes is left after lines 8-19 |
| PathRewriter.RewriteSourcesSkipsLine9 | update_paths.py:9 | line 9 replaces a string by itself, so lines 8-19 are the seven rewrites in order |
| PathRewriter.ApplyRulesEliminates | update_paths.py:8-19 | after any sequence of well-formed rewrites, none of their sources is left |
| PathRewriter.ApplyRulesPreserves | update_paths.py:12-19 | a later rewrite whose target cannot contain an earlier source does not bring that source back |
| PathRewriter.ReplaceAllExcludes | update_paths.py:8-19 | a replace-all whose target shields a string does not create that string |
| PathRewriter.UpdateHtmlPathsUnchanged | update_paths.py:8-24 | text with no relative prefix and no `filename='<dir>/` is returned unchanged |
| PathRewriter.RewriteSourcesDotFree | update_paths.py:8-19 | text without a dot is left unchanged by lines 8-19 |
| PathRewriter.UpdateHtmlPathsAppend | update_paths.py:8-24 | text without a `/` appended after a reference passes through unchanged |
| PathRewriter.ApplyRulesUnchanged | update_paths.py:8-19 | text holding none of the relative prefixes passes through the rewrites unchanged |
| PathRewriter.CloseUrlForUnchanged | update_paths.py:22-24 | text holding no `filename='<dir>/` passes through the closing step unchanged |
| PathRewriter.ApplyRulesAppend | update_paths.py:8-19 | text without a `/` appended to the input comes out unchanged after the rewrites |
| PathRewriter.CloseUrlForAppend | update_paths.py:22-24 | text without a `/` appended to the input comes out unchanged after the closing step |
| PathRewriter.CloseOwnTarget | update_paths.py:22-24 | closing a rewritten reference appends `') }}` once, after its directory |
| PathRewriter.TargetFilename | update_paths.py:22-24 | in a rewritten reference, `filename='<d>/` occurs iff d is that reference's directory |
| PathRewriter.CloseUrlForTarget | update_paths.py:22-24 | the closing step appends `') }}` to a rewritten reference exactly when its directory is closed |
| PathRewriter.RewriteJsSource | update_paths.py:12 | `src="./js/` becomes `src="{{ url_for('static', filename='js/` |
| PathRewriter.JsReferenceExample | update_paths.py:12-23 | `src="./js/` followed by a file name becomes the `url_for` expression closed right after `js/`, then the file name |
| PathRewriter.SecondRunClosesAgain | update_paths.py:22-24 | a second run over a closed reference appends a second `') }}` |
| PathRewriter.UpdateHtmlPathsNotIdempotent | update_paths.py:8-24 | running the transformation on its own output changes it again |

## Left out

- Reading and writing `templates/index.html` and the final message of `update_html_paths` are I/O; the model maps the content to the new content.
- DOM rendering is not modelled: inner HTML, inline styles, `aria-hidden`, the grid thumbnails, the spinner, and the empty and error notices. Only the state they show is kept.
- Lookups of page elements are taken to succeed. The newer script's guards for a missing gallery, modal, lightbox or header element are not modelled. The missing phone and message elements of the form are modelled.
- `setInterval`, `setTimeout`, debounce and throttle are left out. Each firing or handled event is an explicit call, so a throttled scroll event that is dropped is simply not called.
- Clearing the old timer is modelled as replacing the `Timer` in `galleryIntervals`.
- The 300 ms delay before the muted retry, and the replay 100 ms after `ended`, are timing and media-element effects.
- `video.play()`, `pause()`, `muted` and the element's own `currentTime` are media effects. A play attempt's outcome is an input, and a hidden video's position is an input.
- The play indicator shown after a failed retry is DOM rendering.
- The reviews' random emoji (`updateReviewEmoji`) is randomness and is not modelled. Only its throw on an index out of range in the newer `goToImage` is kept.
- The `IntersectionObserver` is left out; the visible ratio is an input to `HandleGalleryVisible`.
- The `fetch` of `/gallery-data` is I/O; `LoadGalleryData` takes how it settled.
- `alert`, `console` and the phone field's error text and border colour are presentation. The form's verdict carries the error kind instead.
- `FormData.get` returning `null` is modelled as the empty string. Both are falsy and fail the same checks.
- `scrollPosition` in `STATE` is never used by the script.
- Clearing every interval on `beforeunload` is not modelled.
- The older lightbox's video branch is not modelled: every entry of its fixed catalog is an image. Its `pause` on close is a media effect.
- The older script's `handleOutsideClick` calls a global `closeMediaPopup` that the script never defines, so that call only throws. The lightbox's own listener has already closed the lightbox by then.
- Scroll offsets are whole numbers here, while `pageYOffset` may be fractional. Only comparisons are made, so the rule is the same.
- `handleResize` re-runs the video set-up. Its effect on the states is `Slider.SetupVideoState` for each gallery with a video.
- Maps, navigation links, smooth scrolling, lazy loading, the form submission and `upload_images.py` and `app.py` are not part of this model.
