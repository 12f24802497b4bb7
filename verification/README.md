# Dr. Shankar Mote portfolio — client-side behaviour in Dafny

This project models the browser-side logic of the portfolio site and of its
admin panel. It covers three scripts:

- the public page's script (`static/js/script.js`):
  - the dark/light theme controller, which reconciles the server's
    `default_theme` setting with the preference kept in
    `localStorage["theme"]` on load, on every poll and on the toggle
    switches;
  - the renderer for the "about" highlights and the two skill lists;
  - the presence check that either renders the portfolio document or
    replaces the main region with an error card;
  - the contact form's blur-time field validation and its character
    counter;
- the admin panel's script (`static/js/admin.js`):
  - the stylesheet cache refresh;
  - the profile-picture upload check;
  - drag-to-reorder of the skills and projects tables, with its save
    payload;
  - the duplicate and delete dialogs and the delete dialog's focus trap;
- the image optimisation script (`static/js/image-optimization.js`):
  - the rewrite of `.jpg`/`.jpeg`/`.png` sources to AVIF or WebP, with an
    error fallback to the original source;
  - lazy loading for every image except the profile picture.

Every server response, browser capability and user gesture is an input of the
model:
- the outcome of a `fetch`;
- the `prefers-color-scheme` media query;
- the two image-format probes;
- the row under the mouse;
- the key pressed;
- which elements the page contains.

State the scripts change in place is modelled with classes:
- the theme (`Theme.ThemeController`);
- the rendered page (`Content.Page`);
- a field's error line and the counter (`ContactForm.FieldView`,
  `ContactForm.CharCounter`);
- a reorderable table (`Reorder.ReorderTable`);
- the dialogs and the document's focus (`Modals.AdminModals`);
- the profile form (`AdminForms.ProfileForm`).

The stylesheet links and the page's images are arrays updated by loops.

The decision logic is written as functions, and lemmas state what it
promises. Among those lemmas:
- a successful theme load always leaves the server mode shown and stored, so
  the next poll with the same setting changes nothing;
- the highlight selection holds exactly the complete triples, in order;
- the computed e-mail check accepts exactly the language of
  `/^[^\s@]+@[^\s@]+\.[^\s@]+$/`;
- the two `insertBefore` calls of the dragover handler realise "move the
  dragged row to the target's index", and any sequence of drags saves a
  permutation of the rows' ids;
- when every element the trap's selector matches takes focus, Tab and
  Shift+Tab cycle through them and return to the start after one full round;
- image rewriting is idempotent, and the error fallback restores the
  original source.

JavaScript details the model keeps:
- an empty string is falsy (`localStorage` values, `about` fields, skill
  icons and names, `data-original`);
- `String.prototype.trim` removes ECMAScript white space and line
  terminators;
- lengths are UTF-16 code-unit counts;
- `v || ''` followed by an input's `value` setter turns a falsy value into
  the empty string;
- `insertBefore` throws when its reference node is not a child of the table
  body, and when the node to insert is null;
- the forEach over images stops at the first image without a `src`
  attribute, because `src.includes` throws there.

Two behaviours of the code a reader might not expect:
- `showConfirmModal` focuses the dialog before `trapFocus` records the
  previously focused element. When the dialog can take focus, the element
  remembered is therefore the dialog itself. On close, `focus()` on that
  now hidden element does nothing, and the browser moves focus from the
  hidden dialog to `body`: focus returns to neither the dialog nor the
  button that opened it (`Modals.ConfirmRoundTrip`).
- `initializeTheme` explicitly stores the server mode when it differs from
  the saved one, but `setThemeMode` has already stored it. After any
  successful load the stored value is the server mode.

## Model

| member | source | states |
|---|---|---|
| Common.Contains | static/js/script.js:215 | `includes` holds exactly when the pattern occurs at some index of the string |
| Common.Trim | static/js/script.js:109 | `trim()` yields the slice of the input left after removing a prefix and a suffix made only of JavaScript white space; the slice neither starts nor ends with white space |
| Common.TrimKeepsNonSpace | static/js/script.js:117 | the trimmed value is at least as long as the count of characters that are not white space, and no longer than the value |
| Common.Utf16Length | static/js/script.js:25 | the JavaScript `length` is the number of code points plus one for each code point above U+FFFF, which takes a surrogate pair; so it lies between the number of code points and twice that |
| Theme.ServerModeIsLightIffLight | static/js/script.js:210-219 | the server mode is light exactly when the setting is present and contains "Light" (case-sensitive); a missing or empty setting falls back to "Default Dark" and gives dark |
| Theme.DefaultDarkHasNoLight | static/js/script.js:210-219 | the fallback "Default Dark" maps to dark because it does not contain "Light" |
| Theme.LightWinsOverDark | static/js/script.js:215-219 | a setting that contains both words maps to light, because "Light" is checked first |
| Theme.LoadDecision | static/js/script.js:222-240 | the server is adopted exactly when nothing truthy is stored; the preference is kept exactly when it equals the server mode's name; otherwise it is overwritten |
| Theme.LoadedMode | static/js/script.js:224-244 | in all three branches of the reconciliation, the mode applied is the server mode |
| Theme.PollTwice | static/js/script.js:257-287 | two polls with the same setting act as one: the server mode ends stored, one notification is raised exactly when the first poll found a different value stored, and otherwise the classes and toggles are unchanged |
| Theme.InitialMode | static/js/script.js:909-911 | on DOMContentLoaded, "dark" gives dark and "light" gives light; with nothing truthy stored the system preference decides; any other stored string gives light |
| Theme.StoredModeWins | static/js/script.js:909-911 | a stored mode name overrides the system preference |
| Theme.ThemeController.SyncThemeToggles | static/js/script.js:891-896 | each toggle that exists gets `checked = isDark`; missing toggles stay missing; nothing else changes |
| Theme.ThemeController.SetThemeMode | static/js/script.js:878-889 | the page shows the mode: its class is added, the other mode's class removed, other classes kept, its name stored and the toggles agree |
| Theme.ThemeController.InitializeTheme | static/js/script.js:204-251 | after a successful request the page shows and stores the server mode, whatever was stored; a failed or non-OK request shows dark; the body loses the other mode's class and gains the shown one's, keeping every other class; which toggles exist does not change |
| Theme.ThemeController.CheckForThemeChanges | static/js/script.js:257-287 | when the stored value differs from the server mode, the server mode is applied (only the two mode classes change) and stored, and one notification is shown; otherwise, and on a failed request, nothing changes; which toggles exist does not change |
| Theme.ThemeController.OnDomContentLoaded | static/js/script.js:904-912 | the page shows the initial mode computed from the stored value and the system preference; only the two mode classes change and which toggles exist does not change |
| Theme.ThemeController.HandleThemeToggle | static/js/script.js:898-902 | a toggle's new `checked` state is the mode shown afterwards; only the two mode classes change and which toggles exist does not change |
| Theme.LoadThenPoll | static/js/script.js:254-287 | a load followed by a poll with the same server setting shows the server mode and raises no notification |
| Content.SelectedBelowSpec | static/js/script.js:571-580 | the highlights collected below index n are exactly the complete triples among those indices, each with three non-empty parts, at most n - 1 of them |
| Content.SelectedSpec | static/js/script.js:571-580 | at most three highlights are shown; highlight i (1 to 3) is shown exactly when its emoji, title and description are all truthy; the shown ones are exactly the complete ones among 1, 2, 3, in that order |
| Content.AllCompleteInOrder | static/js/script.js:571-580 | with three complete triples, they are shown in index order 1, 2, 3 |
| Content.CollectHighlights | static/js/script.js:571-580 | the loop from 1 to 3 builds exactly the selected highlights |
| Content.ItemFor | static/js/script.js:382-390 | a missing icon defaults to the list's icon and a missing name to "Unknown Skill"; the icon is always parsed as HTML, and the name is appended as a text node exactly when the icon starts with `<svg` or `<i` (otherwise it is written into the item's HTML) |
| Content.DefaultIconsWriteNameAsHtml | static/js/script.js:384-390 | the default icons ⚡ and ✨ fail the prefix test, so a skill without an icon has its name written into the item's HTML rather than appended as text |
| Content.RenderSkillList | static/js/script.js:381-406 | a missing list renders nothing; a list renders one item per skill, in order |
| Content.Decide | static/js/script.js:691-706 | the document is rendered exactly when the response is OK and `about`, `skills` and `projects` are all present; a received document that fails the check gets the "Invalid data structure" message |
| Content.SectionFaultSpec | static/js/script.js:472-508 | the render calls after the skills run through exactly when the document raises nothing and the page has both the thesis and the certifications container; an exception from the project or internship renderers is the one reported |
| Content.MissingThesisContainerFailsLoad | static/js/script.js:472-474 | a well-formed document on a page without `#thesis-container` fails the load with the null-container message |
| Content.GuardedSectionFaultSpec | static/js/script.js:511-514 | with the container check the education renderer makes added to the thesis and certification renderers, a missing container never fails the load, and a page with both containers behaves as before |
| Content.Page.RenderAboutHighlights | static/js/script.js:565-592 | a present container ends holding exactly the selected highlights, whatever it held before; a missing one stays missing; the other containers are unchanged |
| Content.Page.RenderSkills | static/js/script.js:367-408 | when both containers exist, each holds its rendered list with its own default icon; when either is missing, neither changes |
| Content.Page.FetchAndRender | static/js/script.js:691-764 | when the presence check fails, nothing is rendered, the error card with the message replaces the main region when it exists and the failure notice is shown; otherwise the highlights and, when both containers exist, the two skill lists are rendered, and then either a later render call throws, leaving them rendered and showing the error card with that exception's message and the failure notice, or the success notice is shown; the loading indicator is off afterwards |
| ContactForm.EmailCheckIsPattern | static/js/script.js:102-103 | the computed e-mail check accepts exactly the strings the pattern `^[^\s@]+@[^\s@]+\.[^\s@]+$` matches |
| ContactForm.ValidateSpec | static/js/script.js:97-121 | a field is invalid exactly when the e-mail rule, the required text rule (trimmed length < 2) or the required textarea rule (trimmed length < 10) fires; the textarea message overrides the others |
| ContactForm.BlankAndLongValues | static/js/script.js:109-121 | a required text field holding only white space is rejected; a required textarea with at least ten characters that are not white space is accepted |
| ContactForm.EmptyEmailIsInvalid | static/js/script.js:101-107 | the e-mail rule applies whether or not the field is required, so an empty e-mail field is invalid |
| ContactForm.FieldView.ClearFieldError | static/js/script.js:131-137 | the error text is emptied when the element exists, and the border is reset in any case |
| ContactForm.FieldView.ValidateField | static/js/script.js:93-129 | without an error element nothing changes; an invalid field shows its message and the red border; a valid field is cleared |
| ContactForm.CounterColour | static/js/script.js:28-34 | red exactly above 900, yellow exactly from 801 to 900, no colour exactly up to 800 |
| ContactForm.CounterMonotone | static/js/script.js:28-34 | a longer message never shows a milder colour |
| ContactForm.CharCounter.OnInput | static/js/script.js:24-35 | the counter shows the message's UTF-16 length and the colour of its band |
| Reorder.IndexOf | static/js/admin.js:126-127 | `indexOf` returns -1 exactly when the row is absent; otherwise it returns the index of the row, the only one when rows are distinct |
| Reorder.MovedIsPermutation | static/js/admin.js:121-136 | moving a row keeps the same rows: same length, same multiset |
| Reorder.MovedPlacement | static/js/admin.js:127-133 | the dragged row lands at the target's old index: after the target when dragged down, before it when dragged up; the other rows keep their order |
| Reorder.MovedDistinct | static/js/admin.js:127-133 | a move keeps the rows distinct |
| Reorder.HandlerRealisesMove | static/js/admin.js:126-133 | the two `insertBefore` calls (before the target's next sibling when the source comes first, before the target otherwise) produce exactly the specified move, including a source from outside the body |
| Reorder.OrderMoved | static/js/admin.js:145-146 | the ids read after a move are the old ids moved the same way |
| Reorder.DragOverPermutes | static/js/admin.js:121-136 | a dragover keeps the rows distinct and permutes them and their ids |
| Reorder.DragsPermute | static/js/admin.js:121-146 | after any sequence of drags, the saved order is a permutation of the original ids, with one entry per row |
| Reorder.CsrfHeaderSpec | static/js/admin.js:148-161 | the `X-CSRFToken` header is the meta tag's token when that is non-empty, otherwise the hidden input's value, and the text "undefined" when that input is missing too; it is empty exactly when the tag gives nothing and the input is empty |
| Reorder.ReorderTable.DragStart | static/js/admin.js:114-119 | the row under the mouse becomes the drag source and gets the `dragging` mark |
| Reorder.ReorderTable.DragOver | static/js/admin.js:121-136 | the rows become the specified move of the source next to the target (unchanged when the handler does not act or throws); the save button appears after an effective move; rows stay distinct |
| Reorder.ReorderTable.DragEnd | static/js/admin.js:138-140 | the drag source loses the `dragging` mark |
| Reorder.ReorderTable.Save | static/js/admin.js:143-175 | the request carries the CSRF header chosen from the meta tag and the hidden input, and the action with the rows' ids in order; success hides the button and reloads; a rejection or an error raises its alert and rolls nothing back |
| Modals.FallbackFieldEmptyIffFalsy | static/js/admin.js:198-200 | a hidden field filled with `v \|\| ''` is empty exactly when `v` is falsy |
| Modals.CopyName | static/js/admin.js:184 | the proposed name is the original name, converted to a string, followed by " (Copy)" |
| Modals.TrapTab | static/js/admin.js:225-237 | Shift+Tab is intercepted exactly on the first focusable element and goes to the last; Tab is intercepted exactly on the last and goes to the first |
| Modals.TabStepRotates | static/js/admin.js:225-237 | with distinct focusable elements, one Tab moves forward and wraps from last to first; one Shift+Tab moves back and wraps from first to last |
| Modals.TabForwardRun | static/js/admin.js:232-236 | pressing Tab k times from position i reaches i + k before the wrap |
| Modals.TabBackwardRun | static/js/admin.js:227-231 | pressing Shift+Tab k times from position i reaches i - k before the wrap |
| Modals.TabCycles | static/js/admin.js:217-244 | over distinct elements that all take focus, and with the browser's own Tab moving to the next of them, n presses of Tab, or of Shift+Tab, return to the starting element without leaving the list |
| Modals.FocusableIdsSpec | static/js/admin.js:219 | the elements that take focus, filtered from those the selector matches, are exactly the focusable candidates, no more of them, and distinct when the candidates are |
| Modals.HiddenFirstInputBreaksTrap | static/js/admin.js:219-237 | with a hidden input first in the list, Shift+Tab on the first control is not intercepted, and Tab on the last is cancelled but lands on an element that cannot take focus |
| Modals.CorrectedTrapCycles | static/js/admin.js:219-237 | a trap over the elements that take focus wraps at both ends onto focusable elements, and focus cycles through all of them |
| Modals.ClosedFocusSpec | static/js/admin.js:207-213 | after the delete dialog closes, focus is never inside it: it is the remembered element when that is outside the dialog, otherwise where it was when that is outside, otherwise `body` |
| Modals.RoundTripLosesOpener | static/js/admin.js:194-218 | as written, opening the dialog and closing it again returns focus to the opener only when the dialog element does not take focus; when it does, focus ends on `body` |
| Modals.RoundTripCorrected | static/js/admin.js:194-218 | remembering the opener before the dialog takes focus returns focus to it on close in every case |
| Modals.ConfirmRoundTrip | static/js/admin.js:194-248 | the class's own open and close, run in sequence, leave focus on `body` when the dialog element takes focus and on the opener otherwise |
| Modals.AdminModals.ShowDuplicateModal | static/js/admin.js:180-187 | when the dialog exists, the id is stored, the name becomes the copy name and the dialog opens; otherwise nothing changes |
| Modals.AdminModals.CloseDuplicateModal | static/js/admin.js:189-192 | an existing duplicate dialog is closed |
| Modals.AdminModals.ShowConfirmModal | static/js/admin.js:194-205 | the action is stored as given and id, button index and category fall back to ''; the dialog opens; the element remembered is the dialog when it takes focus and the opener otherwise; the trap is installed when it matched anything, and focus ends on the first match if it takes focus, else on the dialog or the opener |
| Modals.AdminModals.TrapFocus | static/js/admin.js:216-244 | the focused element is remembered; when the selector matched anything the trap is installed and focus moves to the first match if that takes focus; otherwise focus stays |
| Modals.AdminModals.ReleaseFocus | static/js/admin.js:246-248 | focus moves to the remembered element when there is one and it is rendered (the dialog is open or it is outside the dialog); otherwise focus stays |
| Modals.AdminModals.CloseConfirmModal | static/js/admin.js:207-213 | an existing delete dialog is closed and focus ends outside it, where `ClosedFocus` says; without the dialog nothing changes |
| Modals.AdminModals.KeyDown | static/js/admin.js:225-241 | Tab and Shift+Tab cancel the browser's move exactly at the ends of the matched elements and move focus to the other end only if that takes focus; Escape closes both dialogs and leaves focus outside the delete dialog; other keys, or no trap, change nothing |
| Modals.AdminModals.WindowClick | static/js/admin.js:251-256 | a click on a dialog's backdrop closes that dialog, and closing the delete dialog leaves focus outside it; the other dialog is unchanged |
| AdminForms.ProfilePictureSpec | static/js/admin.js:75-97 | a submission passes exactly when there is no file, or the file's type is allowed and its size is at most 2 MiB; the type is checked before the size |
| AdminForms.ProfilePictureExamples | static/js/admin.js:79-88 | the 2 MiB bound is inclusive, and the MIME type, not the name, decides |
| AdminForms.ProfileForm.OnSubmit | static/js/admin.js:71-97 | a rejected file blocks the submission and, when the error element exists, shows its message; an accepted one submits with the error hidden; without the error element the line is untouched |
| AdminForms.CacheBusted | static/js/admin.js:4-7 | the result contains '?' and starts with the original address; an address without '?' gets `?v=` and the time appended; one that already has a query is unchanged |
| AdminForms.CacheBustIdempotent | static/js/admin.js:3-8 | refreshing twice, at any two times, gives the same address as refreshing once |
| AdminForms.RefreshStylesheets | static/js/admin.js:3-8 | every stylesheet address is replaced by its cache-busted form |
| Images.ReplaceExtension | static/js/image-optimization.js:47 | only a trailing `.jpg`, `.jpeg` or `.png` (in any letter case) is replaced: the rest of the address is kept and the result ends with the new extension; any other address is unchanged |
| Images.OptimiseSpec | static/js/image-optimization.js:33-53 | WebP, AVIF and data sources are untouched; any other image keeps its source in `data-original`; AVIF wins over WebP; only a matching ending changes |
| Images.FallbackRestoresOriginal | static/js/image-optimization.js:56-61 | a rewritten image that fails to load shows its original source again |
| Images.OptimiseIdempotent | static/js/image-optimization.js:36-53 | running the rewrite again changes nothing, because a rewritten source is then skipped |
| Images.WithSource | static/js/image-optimization.js:33-34 | the forEach processes the images before the first one without a `src` attribute |
| Images.UpdateImageSources | static/js/image-optimization.js:26-63 | every image before the first one without a source is rewritten; that image and all later ones are unchanged |
| Images.Lazy | static/js/image-optimization.js:67-71 | an image that is not the profile picture and has no `loading` attribute gets "lazy"; every other attribute is kept, and any other image is unchanged |
| Images.LazyIdempotent | static/js/image-optimization.js:66-73 | adding lazy loading twice equals adding it once |
| Images.AddLazyLoading | static/js/image-optimization.js:66-73 | every image is replaced by its lazy-loading form |

## Left out

- Network requests (`fetch`, response parsing, the POSTs of the contact form and of the reorder save) are not modelled. Their outcome is an input datatype of the model.
- The contact form's submit handler (status messages, button state, form reset) is not modelled, because it is I/O around a POST.
- Timers are not modelled. The 30-second theme poll and the visibility-change poll appear only as calls to `CheckForThemeChanges`. The 100 ms delay before focusing the first focusable element is applied at once. Notifications are a list of messages with no 5-second removal.
- Scroll animations, smooth scrolling, the navbar effects, scroll-spy, the mobile menu and the admin drawer are not modelled. Neither are the main-content padding, the flash-message fading and the log output. These are presentation effects with no state the modelled logic reads.
- Markup is abstracted: rendered containers hold records, not HTML. HTML escaping and injection through `innerHTML` are not modelled.
- The render functions for projects, internships, thesis, certifications, education, achievements and interests are not modelled. Only the presence of `projects` enters the model.
- Content.Page.FetchAndRender: does not model the second `initializeTheme` call after rendering (`Theme.ThemeController.InitializeTheme` models it on its own) or the scroll animations. It also does not model that replacing the main region detaches the containers inside it. The exceptions a document raises in the render calls after the skills (a null project, a truthy non-array section, a non-string `default_theme`) are an input, `Faults`; only the missing thesis and certification containers are derived from the page.
- Skill and highlight data: the fields of `about` and of a skill are strings or absent. Non-string JSON values, and a null entry in a skill list (which throws), are not modelled.
- Images.UpdateImageSources: the two format probes are boolean inputs, because they depend on how the browser decodes two embedded images. Its asynchronous ordering with respect to `addLazyLoading` is not modelled; the two touch different attributes.
- Modals.TabCycles: assumes that every element in the list takes focus and that the browser's own Tab moves to the next element in the list, and Shift+Tab to the previous one. The code's list can hold hidden inputs; see the findings.
- Modals.AdminModals.TrapFocus: each call of `trapFocus` adds another keydown listener to the dialog. All of them work over the same matched elements and act alike, so the model keeps one `trapped` flag.
- Modals.AdminModals.KeyDown: which element receives a key event is not modelled; the method is the handler run on a key that reached the dialog.
- Modals.AdminModals.ReleaseFocus: elements outside the delete dialog are taken to be rendered; an opener hidden by other means is not modelled.
- Modals.AdminModals.constructor: requires `body` to be outside the delete dialog, as it always is.
- Reorder.NextSibling: text nodes between rows are not modelled, since an insertion before a text node lands at the same place among the rows.
- Reorder.ReorderTable.constructor: requires the body rows to be distinct, as the children of one DOM node always are.
- Numbers are mathematical integers. `Date.now()` is a natural-number input; file sizes and lengths are naturals.
- `convert_images.py` and `reset_password.py` are not part of this model. They are server-side tools, not client-side logic.

## Findings

| source | as written | input that shows it | evidently intended | confidence | as-written member | corrected member |
|---|---|---|---|---|---|---|
| static/js/script.js:472-495 | `renderThesis` and `renderCertifications` set `innerHTML` on their container without checking that it exists, unlike the other section renderers | a well-formed document on a page without `#thesis-container`: the highlights and skills are rendered, then the load fails and the error card replaces the page | skip a section whose container is missing, as `renderEducation` does | medium, not executed | Content.MissingThesisContainerFailsLoad | Content.GuardedSectionFaultSpec |
| static/js/admin.js:202-203 | `modal.focus()` runs before `trapFocus` records `document.activeElement`, so a dialog that takes focus records itself | a delete dialog with a `tabindex`, opened from a delete button: on close, focus goes to `body`, not back to the button | record the opener before focusing the dialog, so `releaseFocus` returns to it | medium, not executed | Modals.RoundTripLosesOpener | Modals.RoundTripCorrected |
| static/js/admin.js:219 | the trap's selector matches every `input`, hidden ones included, and takes the first and last match as the ends | a dialog whose first match is `<input type="hidden">`: Shift+Tab on the first button leaves the dialog, and Tab on the last button is cancelled and goes nowhere | cycle over the elements that can take focus | medium, not executed | Modals.HiddenFirstInputBreaksTrap | Modals.CorrectedTrapCycles |
