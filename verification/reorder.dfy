/** The drag-to-reorder controller of the admin tables (`setupDragAndDrop`):
    the live move of the dragged row on every dragover, the save button that
    appears after a move, the save payload built from the rows' `data-id`s,
    the CSRF token choice and the handling of the save response. */
module Reorder {
  import opened Common

  // Sequence surgery used to state the move.

  /** `s` without its element at `i`. */
  function Without<T>(s: seq<T>, i: nat): (r: seq<T>)
    requires i < |s|
    ensures |r| == |s| - 1
    ensures forall k :: 0 <= k < i ==> r[k] == s[k]
    ensures forall k :: i <= k < |r| ==> r[k] == s[k + 1]
  {
    s[..i] + s[i + 1..]
  }

  /** `s` with `x` inserted so that it sits at index `k`. */
  function InsertAt<T>(s: seq<T>, k: nat, x: T): (r: seq<T>)
    requires k <= |s|
    ensures |r| == |s| + 1 && r[k] == x
    ensures forall m :: 0 <= m < k ==> r[m] == s[m]
    ensures forall m :: k < m < |r| ==> r[m] == s[m - 1]
  {
    s[..k] + [x] + s[k..]
  }

  /** The row at `i` moved so that it ends at index `j`, the others keeping
      their relative order. */
  function Moved<T>(s: seq<T>, i: nat, j: nat): seq<T>
    requires i < |s| && j < |s|
  {
    InsertAt(Without(s, i), j, s[i])
  }

  /** The move is a permutation: same length, same multiset. */
  lemma MovedIsPermutation<T>(s: seq<T>, i: nat, j: nat)
    requires i < |s| && j < |s|
    ensures |Moved(s, i, j)| == |s|
    ensures multiset(Moved(s, i, j)) == multiset(s)
  {
    var w := Without(s, i);
    calc {
      multiset(Moved(s, i, j));
      { assert Moved(s, i, j) == w[..j] + [s[i]] + w[j..]; }
      multiset(w[..j]) + multiset{s[i]} + multiset(w[j..]);
      { assert w == w[..j] + w[j..]; }
      multiset(w) + multiset{s[i]};
      { assert w == s[..i] + s[i + 1..]; }
      multiset(s[..i]) + multiset(s[i + 1..]) + multiset{s[i]};
      { assert s == s[..i] + [s[i]] + s[i + 1..]; }
      multiset(s);
    }
  }

  /** The moved element sits at the target's old index: just after the
      target when it came from above, just before it when it came from below;
      removing it again gives back the other rows in their old order. */
  lemma MovedPlacement<T>(s: seq<T>, i: nat, j: nat)
    requires i < |s| && j < |s| && i != j
    ensures Moved(s, i, j)[j] == s[i]
    ensures i < j ==> Moved(s, i, j)[j - 1] == s[j]
    ensures j < i ==> Moved(s, i, j)[j + 1] == s[j]
    ensures Without(Moved(s, i, j), j) == Without(s, i)
  {
    var m := Moved(s, i, j);
    var w := Without(s, i);
    assert |Without(m, j)| == |w|;
    forall k | 0 <= k < |w| ensures Without(m, j)[k] == w[k] {
      if k < j { assert Without(m, j)[k] == m[k]; } else { assert Without(m, j)[k] == m[k + 1]; }
    }
  }

  lemma MovedDistinct<T>(s: seq<T>, i: nat, j: nat)
    requires i < |s| && j < |s| && Distinct(s)
    ensures Distinct(Moved(s, i, j))
  {
    var w := Without(s, i);
    WithoutDistinct(s, i);
    assert s[i] !in w by {
      forall k | 0 <= k < |w| ensures w[k] != s[i] {
        if k < i { assert w[k] == s[k]; } else { assert w[k] == s[k + 1]; }
      }
    }
    InsertDistinct(w, j, s[i]);
  }

  lemma InsertDistinct<T>(s: seq<T>, k: nat, x: T)
    requires k <= |s| && Distinct(s) && x !in s
    ensures Distinct(InsertAt(s, k, x))
  {
    var r := InsertAt(s, k, x);
    forall a, b | 0 <= a < b < |r| ensures r[a] != r[b] {
      if a == k {
        assert r[b] == s[b - 1];
      } else if b == k {
        assert r[a] == s[a];
      } else {
        var a' := if a < k then a else a - 1;
        var b' := if b < k then b else b - 1;
        assert r[a] == s[a'] && r[b] == s[b'] && a' < b';
      }
    }
  }

  /** A row of the table body: `node` stands for the element's identity and
      `dataId` for its `data-id` attribute (None when the attribute is
      missing, which `getAttribute` reports as null). */
  datatype Row = Row(node: nat, dataId: Option<string>)

  /** `Array.prototype.indexOf`: the first index of `r`, or -1. */
  function IndexOf(rows: seq<Row>, r: Row): (idx: int)
    ensures -1 <= idx < |rows|
    ensures idx == -1 <==> r !in rows
    ensures 0 <= idx ==> rows[idx] == r
    ensures 0 <= idx && Distinct(rows) ==> forall k :: 0 <= k < |rows| && rows[k] == r ==> k == idx
  {
    if rows == [] then -1
    else if rows[0] == r then 0
    else
      var i := IndexOf(rows[1..], r);
      assert rows == [rows[0]] + rows[1..];
      if i == -1 then -1 else i + 1
  }

  /** `nextElementSibling` of a body row (a whitespace text node between rows
      does not change where an insertion lands among the rows). */
  function NextSibling(rows: seq<Row>, r: Row): Option<Row> {
    var i := IndexOf(rows, r);
    if 0 <= i < |rows| - 1 then Some(rows[i + 1]) else None
  }

  /** `tbody.insertBefore(node, ref)` on the body's rows: None when `ref` is
      not a child of the body, where the DOM throws a NotFoundError and
      nothing changes. Otherwise `node` is detached from where it was (if it
      was a child) and inserted before `ref`, or appended when `ref` is
      None. A `ref` equal to `node` stands for the node's next sibling. */
  function InsertBefore(rows: seq<Row>, node: Row, ref: Option<Row>): Option<seq<Row>> {
    if ref.Some? && ref.value !in rows then None
    else
      var ref' := if ref == Some(node) then NextSibling(rows, node) else ref;
      var i := IndexOf(rows, node);
      var rest := if i == -1 then rows else Without(rows, i);
      if ref'.None? then Some(rest + [node])
      else
        var k := IndexOf(rest, ref'.value);
        if k == -1 then None else Some(InsertAt(rest, k, node))
  }

  /** Whether a dragover over `target` moves a row: there is a target row
      other than the drag source, a drag source, and the target is a body
      row. In every other case the handler does nothing or throws before
      changing anything. */
  predicate Effective(rows: seq<Row>, src: Option<Row>, target: Option<Row>) {
    target.Some? && target != src && src.Some? && target.value in rows
  }

  /** The body rows after a dragover: a body row
      dragged onto another ends at the target's index; a row dragged from
      outside the body (a header row, say) lands just after the target. */
  ghost function AfterDragOver(rows: seq<Row>, src: Option<Row>, target: Option<Row>): seq<Row> {
    if !Effective(rows, src, target) then rows
    else
      var j := IndexOf(rows, target.value);
      var i := IndexOf(rows, src.value);
      if i == -1 then InsertAt(rows, j + 1, src.value)
      else Moved(rows, i, j)
  }

  lemma WithoutIndex(rows: seq<Row>, i: nat, m: nat)
    requires Distinct(rows) && i < |rows| && m < |rows| && m != i
    ensures IndexOf(Without(rows, i), rows[m]) == if m < i then m else m - 1
  {
    var w := Without(rows, i);
    var t := if m < i then m else m - 1;
    assert w[t] == rows[m];
    WithoutDistinct(rows, i);
  }

  lemma WithoutDistinct<T>(s: seq<T>, i: nat)
    requires Distinct(s) && i < |s|
    ensures Distinct(Without(s, i))
  {
    var w := Without(s, i);
    forall a, b | 0 <= a < b < |w| ensures w[a] != w[b] {
      var a' := if a < i then a else a + 1;
      var b' := if b < i then b else b + 1;
      assert w[a] == s[a'] && w[b] == s[b'] && a' < b';
    }
  }

  /** The two `insertBefore` calls of the dragover handler realise the
      specified move: after the target's next sibling when the source comes
      first, before the target otherwise. */
  lemma {:induction false} HandlerRealisesMove(rows: seq<Row>, src: Row, target: Row)
    requires Distinct(rows) && target in rows && src != target
    ensures var i, j := IndexOf(rows, src), IndexOf(rows, target);
      (if i < j then InsertBefore(rows, src, NextSibling(rows, target))
       else InsertBefore(rows, src, Some(target)))
      == Some(AfterDragOver(rows, Some(src), Some(target)))
  {
    var i, j := IndexOf(rows, src), IndexOf(rows, target);
    if i < j {
      var next := NextSibling(rows, target);
      if i == -1 {
        if next.None? {
          assert rows + [src] == InsertAt(rows, j + 1, src);
        } else {
          assert next.value == rows[j + 1];
          assert IndexOf(rows, next.value) == j + 1;
        }
      } else {
        var w := Without(rows, i);
        if next.None? {
          assert j == |rows| - 1;
          assert w + [src] == InsertAt(w, j, src);
        } else {
          assert next.value == rows[j + 1];
          WithoutIndex(rows, i, j + 1);
        }
      }
    } else {
      assert i != j;
      WithoutIndex(rows, i, j);
    }
  }

  /** One dragover: the drag source held by the handler's closure and the
      row under the mouse (None when the mouse is not over a row). */
  datatype Drag = Drag(src: Option<Row>, target: Option<Row>)

  ghost function AfterDrags(rows: seq<Row>, drags: seq<Drag>): seq<Row>
    decreases |drags|
  {
    if drags == [] then rows
    else AfterDrags(AfterDragOver(rows, drags[0].src, drags[0].target), drags[1..])
  }

  /** The `data-id`s of the rows, in order: the save payload's `order`. */
  function Order(rows: seq<Row>): seq<Option<string>> {
    if rows == [] then [] else [rows[0].dataId] + Order(rows[1..])
  }

  lemma {:induction false} OrderAt(rows: seq<Row>)
    ensures |Order(rows)| == |rows|
    ensures forall k :: 0 <= k < |rows| ==> Order(rows)[k] == rows[k].dataId
  {
    if rows != [] {
      OrderAt(rows[1..]);
    }
  }

  lemma OrderMoved(rows: seq<Row>, i: nat, j: nat)
    requires i < |rows| && j < |rows|
    ensures |Order(rows)| == |rows|
    ensures Order(Moved(rows, i, j)) == Moved(Order(rows), i, j)
  {
    var m := Moved(rows, i, j);
    OrderAt(rows);
    OrderAt(m);
    var n := Moved(Order(rows), i, j);
    forall k | 0 <= k < |m| ensures Order(m)[k] == n[k] {
      if k < j {
        if k < i { assert m[k] == rows[k] && n[k] == Order(rows)[k]; }
        else { assert m[k] == rows[k + 1] && n[k] == Order(rows)[k + 1]; }
      } else if k > j {
        if k - 1 < i { assert m[k] == rows[k - 1] && n[k] == Order(rows)[k - 1]; }
        else { assert m[k] == rows[k] && n[k] == Order(rows)[k]; }
      }
    }
  }

  /** A dragover whose source is a body row (or absent) permutes the rows,
      keeps them distinct and permutes the payload's ids. */
  lemma {:induction false} DragOverPermutes(rows: seq<Row>, d: Drag)
    requires Distinct(rows) && (d.src.Some? ==> d.src.value in rows)
    ensures var r := AfterDragOver(rows, d.src, d.target);
      Distinct(r) && |r| == |rows| && multiset(r) == multiset(rows) &&
      multiset(Order(r)) == multiset(Order(rows))
  {
    if Effective(rows, d.src, d.target) {
      var i, j := IndexOf(rows, d.src.value), IndexOf(rows, d.target.value);
      MovedIsPermutation(rows, i, j);
      MovedDistinct(rows, i, j);
      OrderMoved(rows, i, j);
      MovedIsPermutation(Order(rows), i, j);
    }
  }

  /** Given distinct body rows, any sequence of dragovers leaves a
      permutation of the rows, so the saved `order` is a permutation of the
      original ids and has one entry per row. */
  lemma {:induction false} DragsPermute(rows: seq<Row>, drags: seq<Drag>)
    requires Distinct(rows)
    requires forall k :: 0 <= k < |drags| && drags[k].src.Some? ==> drags[k].src.value in rows
    ensures Distinct(AfterDrags(rows, drags))
    ensures multiset(AfterDrags(rows, drags)) == multiset(rows)
    ensures multiset(Order(AfterDrags(rows, drags))) == multiset(Order(rows))
    ensures |Order(AfterDrags(rows, drags))| == |rows|
    decreases |drags|
  {
    if drags == [] {
      OrderAt(rows);
    } else {
      var next := AfterDragOver(rows, drags[0].src, drags[0].target);
      DragOverPermutes(rows, drags[0]);
      forall k | 0 <= k < |drags[1..]| && drags[1..][k].src.Some?
        ensures drags[1..][k].src.value in next
      {
        assert drags[1..][k] == drags[k + 1];
        assert drags[k + 1].src.value in multiset(rows);
      }
      DragsPermute(next, drags[1..]);
    }
  }

  /** `{action, order}` as it is posted. */
  datatype SavePayload = SavePayload(action: string, order: seq<Option<string>>)

  /** The CSRF token: the meta tag's `content` when it is truthy, otherwise
      the hidden input's value (None when that input is missing). `meta` is
      None when the tag or its attribute is missing. */
  function CsrfToken(meta: Option<string>, input: Option<string>): Option<string> {
    if Truthy(meta) then meta else input
  }

  /** The `X-CSRFToken` header as sent: a missing token is converted to a
      string like any other header value, giving "undefined". */
  function CsrfHeader(meta: Option<string>, input: Option<string>): string {
    match CsrfToken(meta, input)
    case Some(t) => t
    case None => "undefined"
  }

  /** The meta tag wins whenever it holds a non-empty token; the hidden input
      is used otherwise; with neither element the header carries the literal
      text "undefined"; the header is empty only when the tag holds nothing
      and the input is there but empty. */
  lemma CsrfHeaderSpec(meta: Option<string>, input: Option<string>)
    ensures Truthy(meta) ==> CsrfHeader(meta, input) == meta.value
    ensures !Truthy(meta) && input.Some? ==> CsrfHeader(meta, input) == input.value
    ensures !Truthy(meta) && input.None? ==> CsrfHeader(meta, input) == "undefined"
    ensures CsrfHeader(meta, input) == "" <==> !Truthy(meta) && input == Some("")
  {
  }

  /** The POST the save button sends: the CSRF header and the JSON body. */
  datatype SaveRequest = SaveRequest(csrfHeader: string, payload: SavePayload)

  /** The parsed save response, which the model takes as input. */
  datatype SaveResponse =
    | Saved            // `{success: true}`
    | Rejected         // any other JSON reply
    | Unreachable      // a network error or a reply that is not JSON

  /** One reorderable admin table and its save button. */
  class ReorderTable {
    var rows: seq<Row>
    var dragSrc: Option<Row>
    var dragging: set<Row>  // rows carrying the `dragging` class
    var saveVisible: bool
    var alerts: seq<string>
    var reloaded: bool
    const hasSaveButton: bool
    const action: string

    ghost predicate Valid()
      reads this
    {
      Distinct(rows)
    }

    constructor (rows: seq<Row>, hasSaveButton: bool, action: string)
      requires Distinct(rows)
      ensures Valid() && this.rows == rows && dragSrc == None && dragging == {}
      ensures !saveVisible && alerts == [] && !reloaded
      ensures this.hasSaveButton == hasSaveButton && this.action == action
    {
      this.rows := rows;
      this.hasSaveButton := hasSaveButton;
      this.action := action;
      dragSrc := None;
      dragging := {};
      saveVisible := false;
      alerts := [];
      reloaded := false;
    }

    /** `dragstart`: remember the row under the mouse and mark it. */
    method DragStart(row: Option<Row>)
      modifies this`dragSrc, this`dragging
      ensures dragSrc == row
      ensures dragging == if row.Some? then old(dragging) + {row.value} else old(dragging)
    {
      dragSrc := row;
      if row.Some? {
        dragging := dragging + {row.value};
      }
    }

    /** `dragover`: move the drag source next to the target row, and show
        the save button after an effective move. */
    method DragOver(target: Option<Row>)
      requires Valid()
      modifies this`rows, this`saveVisible
      ensures Valid()
      ensures rows == AfterDragOver(old(rows), dragSrc, target)
      ensures saveVisible == (old(saveVisible) || (hasSaveButton && Effective(old(rows), dragSrc, target)))
    {
      if target.Some? && target != dragSrc {
        var dragIndex := if dragSrc.Some? then IndexOf(rows, dragSrc.value) else -1;
        var targetIndex := IndexOf(rows, target.value);
        if dragSrc.None? {
          return;  // insertBefore(null, ...) throws a TypeError
        }
        var src := dragSrc.value;
        var result;
        if dragIndex < targetIndex {
          result := InsertBefore(rows, src, NextSibling(rows, target.value));
        } else {
          result := InsertBefore(rows, src, target);
        }
        if result.None? {
          return;  // the target is not a body row: NotFoundError
        }
        HandlerRealisesMove(rows, src, target.value);
        if IndexOf(rows, src) == -1 {
          InsertDistinct(rows, IndexOf(rows, target.value) + 1, src);
        } else {
          MovedDistinct(rows, IndexOf(rows, src), IndexOf(rows, target.value));
        }
        rows := result.value;
        if hasSaveButton {
          saveVisible := true;
        }
      }
    }

    /** `dragend`: unmark the drag source. */
    method DragEnd()
      modifies this`dragging
      ensures dragging == if dragSrc.Some? then old(dragging) - {dragSrc.value} else old(dragging)
    {
      if dragSrc.Some? {
        dragging := dragging - {dragSrc.value};
      }
    }

    /** The save button's click handler: post the current order; on success
        hide the button and reload, otherwise alert. The rows are never
        rolled back. */
    method Save(meta: Option<string>, input: Option<string>, response: SaveResponse)
        returns (request: SaveRequest)
      requires hasSaveButton
      modifies this`saveVisible, this`alerts, this`reloaded
      ensures request.payload == SavePayload(action, Order(rows))
      ensures request.csrfHeader == CsrfHeader(meta, input)
      ensures response == Saved ==> !saveVisible && reloaded && alerts == old(alerts)
      ensures response == Rejected ==>
        saveVisible == old(saveVisible) && reloaded == old(reloaded) &&
        alerts == old(alerts) + ["Failed to save order."]
      ensures response == Unreachable ==>
        saveVisible == old(saveVisible) && reloaded == old(reloaded) &&
        alerts == old(alerts) + ["An error occurred while saving."]
    {
      var token := if Truthy(meta) then meta else input;
      var header := if token.Some? then token.value else "undefined";
      request := SaveRequest(header, SavePayload(action, Order(rows)));
      match response {
        case Saved =>
          saveVisible := false;
          reloaded := true;
        case Rejected =>
          alerts := alerts + ["Failed to save order."];
        case Unreachable =>
          alerts := alerts + ["An error occurred while saving."];
      }
    }
  }
}
