/** The two confirmation dialogs of the admin panel and the focus trap of
    the delete dialog: how the hidden fields are filled from the call's
    arguments, how Tab and Shift+Tab wrap at the ends of the dialog's
    focusable elements, and how focus returns on close. */
module Modals {
  import opened Common

  /** A JavaScript value as it reaches the dialog functions. */
  datatype JsValue = Undefined | Null | Bool(b: bool) | Num(n: int) | Str(s: string)

  predicate Falsy(v: JsValue) {
    v == Undefined || v == Null || v == Bool(false) || v == Num(0) || v == Str("")
  }

  /** `v || ''` */
  function OrEmpty(v: JsValue): (r: JsValue)
    ensures Falsy(v) ==> r == Str("")
    ensures !Falsy(v) ==> r == v
  {
    if Falsy(v) then Str("") else v
  }

  /** ECMAScript ToString, as string concatenation applies it. */
  function JsToString(v: JsValue): string {
    match v
    case Undefined => "undefined"
    case Null => "null"
    case Bool(b) => if b then "true" else "false"
    case Num(n) => IntToString(n)
    case Str(s) => s
  }

  /** The string an input's `value` setter stores: null becomes the empty
      string, everything else goes through ToString. */
  function DomValue(v: JsValue): string {
    if v == Null then "" else JsToString(v)
  }

  /** A hidden field filled with `v || ''` is empty exactly when `v` is
      falsy: a truthy value never converts to the empty string. */
  lemma FallbackFieldEmptyIffFalsy(v: JsValue)
    ensures DomValue(OrEmpty(v)) == "" <==> Falsy(v)
  {
  }

  /** The name proposed for a copy: the original name followed by " (Copy)". */
  function CopyName(name: JsValue): (r: string)
    ensures |r| == |JsToString(name)| + 7
    ensures r[..|JsToString(name)|] == JsToString(name)
    ensures r[|JsToString(name)|..] == " (Copy)"
  {
    JsToString(name) + " (Copy)"
  }

  /** A focusable element, by identity. */
  type Element = nat

  /** What the trap's keydown handler does with a Tab key. */
  datatype TabAction = MoveFocus(to: Element) | BrowserDefault

  /** The focus trap over `focusables` (in document order): Tab on the last
      element goes to the first, Shift+Tab on the first goes to the last, and
      every other Tab is left to the browser. */
  function TrapTab(focusables: seq<Element>, active: Element, shift: bool): (r: TabAction)
    requires |focusables| > 0
    ensures shift ==> (r.MoveFocus? <==> active == focusables[0])
    ensures !shift ==> (r.MoveFocus? <==> active == focusables[|focusables| - 1])
    ensures r.MoveFocus? ==> r.to == if shift then focusables[|focusables| - 1] else focusables[0]
  {
    var first := focusables[0];
    var last := focusables[|focusables| - 1];
    if shift then (if active == first then MoveFocus(last) else BrowserDefault)
    else (if active == last then MoveFocus(first) else BrowserDefault)
  }

  /** The position focus reaches from position `i` after one Tab (or
      Shift+Tab), taking the browser's own move to be the next (or previous)
      focusable element in document order. */
  function TabStep(focusables: seq<Element>, i: nat, shift: bool): nat
    requires i < |focusables|
  {
    match TrapTab(focusables, focusables[i], shift)
    case MoveFocus(_) => if shift then |focusables| - 1 else 0
    case BrowserDefault => if shift then i - 1 else i + 1
  }

  /** With distinct focusable elements, one Tab moves to the next position
      and wraps from the last to the first; one Shift+Tab moves to the
      previous position and wraps from the first to the last. */
  lemma TabStepRotates(focusables: seq<Element>, i: nat, shift: bool)
    requires Distinct(focusables) && i < |focusables|
    ensures !shift ==> TabStep(focusables, i, shift) == if i == |focusables| - 1 then 0 else i + 1
    ensures shift ==> TabStep(focusables, i, shift) == if i == 0 then |focusables| - 1 else i - 1
  {
    var n := |focusables|;
    if shift && i != 0 {
      assert focusables[i] != focusables[0];
    }
    if !shift && i != n - 1 {
      assert focusables[i] != focusables[n - 1];
    }
  }

  /** The position after `k` presses of Tab (or Shift+Tab) from `i`. */
  function TabPresses(focusables: seq<Element>, i: nat, shift: bool, k: nat): (r: nat)
    requires i < |focusables|
    ensures r < |focusables|
    decreases k
  {
    if k == 0 then i
    else
      var j := TabStep(focusables, i, shift);
      assert j < |focusables| by {
        if TrapTab(focusables, focusables[i], shift).BrowserDefault? {
          assert shift ==> i != 0;
          assert !shift ==> i != |focusables| - 1;
        }
      }
      TabPresses(focusables, j, shift, k - 1)
  }

  lemma {:induction false} TabPressesAdd(focusables: seq<Element>, i: nat, shift: bool, a: nat, b: nat)
    requires i < |focusables|
    ensures TabPresses(focusables, i, shift, a + b) ==
            TabPresses(focusables, TabPresses(focusables, i, shift, a), shift, b)
    decreases a
  {
    if a > 0 {
      TabPressesAdd(focusables, TabStep(focusables, i, shift), shift, a - 1, b);
    }
  }

  /** Tab from position i moves forward one position per press until the
      last element. */
  lemma {:induction false} TabForwardRun(focusables: seq<Element>, i: nat, k: nat)
    requires Distinct(focusables) && i + k < |focusables|
    ensures TabPresses(focusables, i, false, k) == i + k
    decreases k
  {
    if k > 0 {
      TabStepRotates(focusables, i, false);
      TabForwardRun(focusables, i + 1, k - 1);
    }
  }

  /** Shift+Tab from position i moves back one position per press until the
      first element. */
  lemma {:induction false} TabBackwardRun(focusables: seq<Element>, i: nat, k: nat)
    requires Distinct(focusables) && k <= i < |focusables|
    ensures TabPresses(focusables, i, true, k) == i - k
    decreases k
  {
    if k > 0 {
      TabStepRotates(focusables, i, true);
      TabBackwardRun(focusables, i - 1, k - 1);
    }
  }

  /** Focus cycles through the dialog and never leaves it: n presses of
      Tab, or of Shift+Tab, bring it back to where it started, having passed
      through every other focusable element once on the way (the two run
      lemmas above). */
  lemma {:induction false} TabCycles(focusables: seq<Element>, i: nat)
    requires Distinct(focusables) && i < |focusables|
    ensures TabPresses(focusables, i, false, |focusables|) == i
    ensures TabPresses(focusables, i, true, |focusables|) == i
  {
    var n := |focusables|;
    // Forward: n - 1 - i steps to the last, one wrap to the first, i more.
    TabPressesAdd(focusables, i, false, n - 1 - i, i + 1);
    TabForwardRun(focusables, i, n - 1 - i);
    TabPressesAdd(focusables, n - 1, false, 1, i);
    TabStepRotates(focusables, n - 1, false);
    TabForwardRun(focusables, 0, i);
    // Backward: i steps to the first, one wrap to the last, n - 1 - i more.
    TabPressesAdd(focusables, i, true, i, n - i);
    TabBackwardRun(focusables, i, i);
    TabPressesAdd(focusables, 0, true, 1, n - 1 - i);
    TabStepRotates(focusables, 0, true);
    TabBackwardRun(focusables, n - 1, n - 1 - i);
  }

  /** An element the trap's selector matched inside the dialog, and whether
      it can take focus: the selector matches `input` of every type, so an
      `<input type="hidden">` is matched although `focus()` on it does
      nothing. */
  datatype Candidate = Candidate(id: Element, focusable: bool)

  /** The matched elements, in document order. */
  function Ids(cs: seq<Candidate>): (r: seq<Element>)
    ensures |r| == |cs|
    ensures forall k :: 0 <= k < |cs| ==> r[k] == cs[k].id
  {
    seq(|cs|, k requires 0 <= k < |cs| => cs[k].id)
  }

  /** The matched elements that take focus, in document order: the list the
      trap evidently means to cycle over. */
  function FocusableIds(cs: seq<Candidate>): seq<Element>
  {
    if cs == [] then []
    else (if cs[0].focusable then [cs[0].id] else []) + FocusableIds(cs[1..])
  }

  /** Every entry of the filtered list is a focusable candidate, every
      focusable candidate is in it, and it inherits distinctness. */
  lemma {:induction false} FocusableIdsSpec(cs: seq<Candidate>)
    ensures forall e :: e in FocusableIds(cs) <==> Candidate(e, true) in cs
    ensures |FocusableIds(cs)| <= |cs|
    ensures Distinct(Ids(cs)) ==> Distinct(FocusableIds(cs))
  {
    if cs != [] {
      var tail := cs[1..];
      FocusableIdsSpec(tail);
      assert cs == [cs[0]] + tail;
      if Distinct(Ids(cs)) {
        assert Ids(tail) == Ids(cs)[1..];
        assert Distinct(Ids(tail));
        forall e | e in FocusableIds(tail) ensures e != cs[0].id {
          var k :| 0 <= k < |tail| && tail[k] == Candidate(e, true);
          assert Ids(cs)[k + 1] == e;
        }
      }
    }
  }

  /** Where the trap's keydown handler sends focus: `focus()` on the element
      it picks only moves focus when that element takes focus, and the
      default action is cancelled either way. */
  function TrapLanding(cs: seq<Candidate>, shift: bool): Candidate
    requires cs != []
  {
    if shift then cs[|cs| - 1] else cs[0]
  }

  /** With a hidden input first among the matched elements, Shift+Tab on the
      first control that takes focus is left to the browser, which moves
      focus out of the dialog, and Tab on the last control is cancelled but
      moves focus nowhere, so focus stays put. */
  lemma HiddenFirstInputBreaksTrap()
    ensures var cs := [Candidate(2, false), Candidate(3, true), Candidate(4, true)];
      TrapTab(Ids(cs), 3, true) == BrowserDefault &&
      TrapTab(Ids(cs), 4, false) == MoveFocus(2) && !TrapLanding(cs, false).focusable
  {
    var cs := [Candidate(2, false), Candidate(3, true), Candidate(4, true)];
    assert Ids(cs) == [2, 3, 4];
  }

  /** The trap over the elements that take focus: Shift+Tab on the first of
      them wraps to the last and Tab on the last wraps to the first, and with
      distinct elements focus cycles through all of them and stays inside. */
  lemma CorrectedTrapCycles(cs: seq<Candidate>, i: nat)
    requires Distinct(Ids(cs)) && i < |FocusableIds(cs)|
    ensures var f := FocusableIds(cs);
      TrapTab(f, f[0], true) == MoveFocus(f[|f| - 1]) &&
      TrapTab(f, f[|f| - 1], false) == MoveFocus(f[0]) &&
      Candidate(f[0], true) in cs && Candidate(f[|f| - 1], true) in cs
    ensures TabPresses(FocusableIds(cs), i, false, |FocusableIds(cs)|) == i
    ensures TabPresses(FocusableIds(cs), i, true, |FocusableIds(cs)|) == i
  {
    FocusableIdsSpec(cs);
    TabCycles(FocusableIds(cs), i);
  }

  /** Where focus ends when the delete dialog closes. `releaseFocus` calls
      `focus()` on the remembered element, which only works when that
      element is still rendered, that is, outside the now hidden `dialog`;
      if focus is then left on a hidden element, the browser moves it to
      `body`. */
  function ClosedFocus(focus: Element, lastFocused: Option<Element>, dialog: seq<Element>,
                       body: Element): Element
  {
    var released := if lastFocused.Some? && lastFocused.value !in dialog then lastFocused.value else focus;
    if released in dialog then body else released
  }

  /** Focus never stays inside a closed dialog: it goes to the remembered
      element when that is outside the dialog, stays where it was when both
      are inside neither, and otherwise falls back to `body`. */
  lemma ClosedFocusSpec(focus: Element, lastFocused: Option<Element>, dialog: seq<Element>,
                        body: Element)
    requires body !in dialog
    ensures ClosedFocus(focus, lastFocused, dialog, body) !in dialog
    ensures lastFocused.Some? && lastFocused.value !in dialog ==>
      ClosedFocus(focus, lastFocused, dialog, body) == lastFocused.value
    ensures (lastFocused.None? || lastFocused.value in dialog) ==>
      ClosedFocus(focus, lastFocused, dialog, body) == if focus in dialog then body else focus
  {
  }

  /** Focus after the delete dialog is opened from `opener` and closed again.
      `captureFirst` says whether the element to return to is remembered
      before the dialog takes focus (the evident intent) or after it (the
      code as written, where `modal.focus()` precedes `trapFocus`). */
  function RoundTripFocus(opener: Element, captureFirst: bool, dialogFocusable: bool,
                          dialog: Element, contents: seq<Candidate>, body: Element): Element
  {
    var shown := if dialogFocusable then dialog else opener;
    var saved := if captureFirst then opener else shown;
    var trapped := if contents != [] && contents[0].focusable then contents[0].id else shown;
    ClosedFocus(trapped, Some(saved), [dialog] + Ids(contents), body)
  }

  /** As written, a dialog element that takes focus is what gets remembered,
      so closing the dialog leaves focus on `body`, not on the opener; the
      opener gets focus back only when the dialog element does not take
      focus. */
  lemma RoundTripLosesOpener(opener: Element, dialogFocusable: bool, dialog: Element,
                             contents: seq<Candidate>, body: Element)
    requires opener != dialog && opener !in Ids(contents)
    requires body != dialog && body !in Ids(contents)
    ensures RoundTripFocus(opener, false, dialogFocusable, dialog, contents, body) ==
      if dialogFocusable then body else opener
  {
    if contents != [] && contents[0].focusable {
      assert contents[0].id == Ids(contents)[0];
    }
  }

  /** Remembering the opener before the dialog takes focus returns focus to
      it on close, whether or not the dialog element takes focus. */
  lemma RoundTripCorrected(opener: Element, dialogFocusable: bool, dialog: Element,
                           contents: seq<Candidate>, body: Element)
    requires opener != dialog && opener !in Ids(contents)
    ensures RoundTripFocus(opener, true, dialogFocusable, dialog, contents, body) == opener
  {
  }

  /** The confirmation dialogs and the document's focus. A dialog that the
      page does not contain is never opened. The delete dialog's content is
      fixed: `contents` are the elements the trap's selector matches in it.
      Every opening installs another keydown handler over the same elements;
      since they all act alike, one `trapped` flag stands for them. */
  class AdminModals {
    const hasDuplicate: bool
    const hasConfirm: bool
    const confirmElement: Element     // the delete dialog itself
    const confirmFocusable: bool      // whether the dialog element takes focus
    const contents: seq<Candidate>
    const body: Element               // document.body
    var duplicateOpen: bool
    var confirmOpen: bool
    var duplicateId: string
    var newName: string
    var deleteAction: string
    var deleteId: string
    var deleteButtonIndex: string
    var deleteCategory: string
    var focus: Element                  // document.activeElement
    var lastFocused: Option<Element>    // the global `lastFocusedElement`
    var trapped: bool                   // a trap handler is installed on the dialog

    /** The delete dialog and everything in it the trap matched. */
    function Dialog(): seq<Element> {
      [confirmElement] + Ids(contents)
    }

    ghost predicate Valid()
      reads this`trapped
    {
      body !in Dialog() && (trapped ==> contents != [])
    }

    constructor (hasDuplicate: bool, hasConfirm: bool, confirmElement: Element,
                 confirmFocusable: bool, contents: seq<Candidate>, body: Element, focus: Element)
      requires body != confirmElement && body !in Ids(contents)
      ensures Valid()
      ensures this.hasDuplicate == hasDuplicate && this.hasConfirm == hasConfirm
      ensures this.confirmElement == confirmElement && this.confirmFocusable == confirmFocusable
      ensures this.contents == contents && this.body == body
      ensures !duplicateOpen && !confirmOpen && this.focus == focus
      ensures lastFocused == None && !trapped
    {
      this.hasDuplicate := hasDuplicate;
      this.hasConfirm := hasConfirm;
      this.confirmElement := confirmElement;
      this.confirmFocusable := confirmFocusable;
      this.contents := contents;
      this.body := body;
      this.focus := focus;
      duplicateOpen, confirmOpen := false, false;
      duplicateId, newName := "", "";
      deleteAction, deleteId, deleteButtonIndex, deleteCategory := "", "", "", "";
      lastFocused := None;
      trapped := false;
    }

    /** `showDuplicateModal`: fill the id and the proposed name, then show. */
    method ShowDuplicateModal(portfolioId: JsValue, portfolioName: JsValue)
      modifies this`duplicateId, this`newName, this`duplicateOpen
      ensures hasDuplicate ==>
        duplicateId == DomValue(portfolioId) && newName == CopyName(portfolioName) && duplicateOpen
      ensures !hasDuplicate ==>
        duplicateId == old(duplicateId) && newName == old(newName) && duplicateOpen == old(duplicateOpen)
    {
      if hasDuplicate {
        duplicateId := DomValue(portfolioId);
        newName := DomValue(Str(CopyName(portfolioName)));
        duplicateOpen := true;
      }
    }

    /** `closeDuplicateModal` */
    method CloseDuplicateModal()
      modifies this`duplicateOpen
      ensures duplicateOpen == (old(duplicateOpen) && !hasDuplicate)
    {
      if hasDuplicate {
        duplicateOpen := false;
      }
    }

    /** `showConfirmModal`: fill the four hidden fields (the last three fall
        back to '' when falsy), show the dialog, focus it and trap focus. */
    method ShowConfirmModal(action: JsValue, id: JsValue, buttonIndex: JsValue, category: JsValue)
      requires Valid()
      modifies this`deleteAction, this`deleteId, this`deleteButtonIndex, this`deleteCategory,
               this`confirmOpen, this`focus, this`lastFocused, this`trapped
      ensures Valid()
      ensures hasConfirm ==>
        deleteAction == DomValue(action) && deleteId == DomValue(OrEmpty(id)) &&
        deleteButtonIndex == DomValue(OrEmpty(buttonIndex)) &&
        deleteCategory == DomValue(OrEmpty(category)) && confirmOpen
      ensures hasConfirm ==>
        lastFocused == Some(if confirmFocusable then confirmElement else old(focus)) &&
        trapped == (old(trapped) || contents != []) &&
        focus == if contents != [] && contents[0].focusable then contents[0].id
                 else if confirmFocusable then confirmElement else old(focus)
      ensures !hasConfirm ==>
        deleteAction == old(deleteAction) && deleteId == old(deleteId) &&
        deleteButtonIndex == old(deleteButtonIndex) && deleteCategory == old(deleteCategory) &&
        confirmOpen == old(confirmOpen) && focus == old(focus) &&
        lastFocused == old(lastFocused) && trapped == old(trapped)
    {
      if hasConfirm {
        deleteAction := DomValue(action);
        deleteId := DomValue(OrEmpty(id));
        deleteButtonIndex := DomValue(OrEmpty(buttonIndex));
        deleteCategory := DomValue(OrEmpty(category));
        confirmOpen := true;
        if confirmFocusable {
          focus := confirmElement;
        }
        TrapFocus();
      }
    }

    /** `trapFocus`: remember the focused element; with at least one matched
        element, install the keydown handler and (after the short delay) call
        `focus()` on the first one, which moves focus only if it takes it. */
    method TrapFocus()
      requires Valid()
      modifies this`lastFocused, this`trapped, this`focus
      ensures Valid()
      ensures lastFocused == Some(old(focus))
      ensures trapped == (old(trapped) || contents != [])
      ensures focus == if contents != [] && contents[0].focusable then contents[0].id else old(focus)
    {
      lastFocused := Some(focus);
      if contents == [] {
        return;
      }
      trapped := true;
      if contents[0].focusable {
        focus := contents[0].id;
      }
    }

    /** `releaseFocus`: `focus()` on the remembered element, which does
        nothing while that element is inside the hidden dialog. */
    method ReleaseFocus()
      modifies this`focus
      ensures focus == if lastFocused.Some? && (confirmOpen || lastFocused.value !in Dialog())
                       then lastFocused.value else old(focus)
    {
      if lastFocused.Some? && (confirmOpen || lastFocused.value !in Dialog()) {
        focus := lastFocused.value;
      }
    }

    /** `closeConfirmModal`: hide the dialog and give focus back. Focus left
        on a hidden element is moved to `body`. */
    method CloseConfirmModal()
      requires Valid()
      modifies this`confirmOpen, this`focus
      ensures hasConfirm ==>
        !confirmOpen && focus == ClosedFocus(old(focus), lastFocused, Dialog(), body) &&
        focus !in Dialog()
      ensures !hasConfirm ==> confirmOpen == old(confirmOpen) && focus == old(focus)
    {
      if hasConfirm {
        confirmOpen := false;
        ReleaseFocus();
        if focus in Dialog() {
          focus := body;
        }
      }
    }

    /** The trap's keydown handler, run on a key that reached the dialog.
        Tab and Shift+Tab wrap at the ends of the matched elements
        (`prevented` tells whether the browser's own move was cancelled, and
        focus moves only if the element picked takes focus); Escape closes
        both dialogs. Without a trap nothing happens. */
    method KeyDown(key: string, shift: bool) returns (prevented: bool)
      requires Valid()
      modifies this`focus, this`confirmOpen, this`duplicateOpen
      ensures !trapped ==>
        !prevented && focus == old(focus) &&
        confirmOpen == old(confirmOpen) && duplicateOpen == old(duplicateOpen)
      ensures trapped && key == "Tab" ==>
        (prevented <==> TrapTab(Ids(contents), old(focus), shift).MoveFocus?) &&
        focus == (if prevented && TrapLanding(contents, shift).focusable
                  then TrapLanding(contents, shift).id else old(focus)) &&
        confirmOpen == old(confirmOpen) && duplicateOpen == old(duplicateOpen)
      ensures trapped && key == "Escape" ==>
        !prevented && (hasDuplicate ==> !duplicateOpen) &&
        (!hasDuplicate ==> duplicateOpen == old(duplicateOpen))
      ensures trapped && key == "Escape" && hasConfirm ==>
        !confirmOpen && focus == ClosedFocus(old(focus), lastFocused, Dialog(), body) &&
        focus !in Dialog()
      ensures trapped && key == "Escape" && !hasConfirm ==>
        confirmOpen == old(confirmOpen) && focus == old(focus)
      ensures trapped && key != "Tab" && key != "Escape" ==>
        !prevented && focus == old(focus) &&
        confirmOpen == old(confirmOpen) && duplicateOpen == old(duplicateOpen)
    {
      prevented := false;
      if !trapped {
        return;
      }
      if key == "Tab" {
        var first := contents[0];
        var last := contents[|contents| - 1];
        if shift {
          if focus == first.id {
            prevented := true;
            if last.focusable {
              focus := last.id;
            }
          }
        } else {
          if focus == last.id {
            prevented := true;
            if first.focusable {
              focus := first.id;
            }
          }
        }
      } else if key == "Escape" {
        CloseConfirmModal();
        CloseDuplicateModal();
      }
    }

    /** `window.onclick`: a click on a dialog's own element (its backdrop)
        closes that dialog. */
    method WindowClick(onDuplicateBackdrop: bool, onConfirmBackdrop: bool)
      requires Valid()
      modifies this`duplicateOpen, this`confirmOpen, this`focus
      ensures onDuplicateBackdrop && hasDuplicate ==> !duplicateOpen
      ensures !(onDuplicateBackdrop && hasDuplicate) ==> duplicateOpen == old(duplicateOpen)
      ensures onConfirmBackdrop && hasConfirm ==>
        !confirmOpen && focus == ClosedFocus(old(focus), lastFocused, Dialog(), body) &&
        focus !in Dialog()
      ensures !(onConfirmBackdrop && hasConfirm) ==> confirmOpen == old(confirmOpen) && focus == old(focus)
    {
      if onDuplicateBackdrop && hasDuplicate {
        CloseDuplicateModal();
      }
      if onConfirmBackdrop && hasConfirm {
        CloseConfirmModal();
      }
    }
  }

  /** Opening the delete dialog from an element outside it and closing it
      again, as the code is written: focus ends where `RoundTripFocus` with
      the late capture says, which is `body` whenever the dialog element
      takes focus. */
  method ConfirmRoundTrip(m: AdminModals, action: JsValue, id: JsValue, buttonIndex: JsValue,
                          category: JsValue)
    requires m.Valid() && m.hasConfirm && m.focus !in m.Dialog()
    modifies m
    ensures m.Valid() && !m.confirmOpen
    ensures m.focus == RoundTripFocus(old(m.focus), false, m.confirmFocusable, m.confirmElement,
                                      m.contents, m.body)
    ensures m.confirmFocusable ==> m.focus == m.body
    ensures !m.confirmFocusable ==> m.focus == old(m.focus)
  {
    ghost var opener := m.focus;
    m.ShowConfirmModal(action, id, buttonIndex, category);
    if m.contents != [] && m.contents[0].focusable {
      assert m.contents[0].id == Ids(m.contents)[0];
    }
    m.CloseConfirmModal();
    RoundTripLosesOpener(opener, m.confirmFocusable, m.confirmElement, m.contents, m.body);
  }
}
