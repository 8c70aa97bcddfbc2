/**
 Modal dialogs (`openModal` / `closeModal` and the Escape key handler in
 dist/js/main.js).

 The page is a list of elements in document order. For each one the model
 keeps its `data-popup` value ("" when the attribute is absent), whether it
 carries the `modal` class and whether it carries `modal--active`. The page
 scroll lock (`document.body.style.overflow == 'hidden'`) is a flag.
 */
module Modals {
  import opened Dom

  datatype ModalElement = ModalElement(popup: string, isModal: bool, active: bool)

  /** `document.querySelector('[data-popup="id"]')`. */
  function FindModal(es: seq<ModalElement>, id: string): (r: Option<nat>)
    ensures r.Some? ==> r.value < |es| && es[r.value].popup == id
    ensures r.Some? ==> forall j :: 0 <= j < r.value ==> es[j].popup != id
    ensures r.None? <==> forall j :: 0 <= j < |es| ==> es[j].popup != id
  {
    FirstWhere(es, (e: ModalElement) => e.popup == id)
  }

  /** `document.querySelector('.modal--active')`. */
  function FindActive(es: seq<ModalElement>): (r: Option<nat>)
    ensures r.Some? ==> r.value < |es| && es[r.value].active
    ensures r.Some? ==> forall j :: 0 <= j < r.value ==> !es[j].active
    ensures r.None? <==> NoneActive(es)
  {
    FirstWhere(es, (e: ModalElement) => e.active)
  }

  /** No element carries `modal--active`. */
  predicate NoneActive(es: seq<ModalElement>) {
    forall j :: 0 <= j < |es| ==> !es[j].active
  }

  /** At most one element carries `modal--active`. */
  predicate AtMostOneActive(es: seq<ModalElement>) {
    forall i, j :: 0 <= i < |es| && 0 <= j < |es| && es[i].active && es[j].active ==> i == j
  }

  /** Markup in which every dialog (`data-popup`) is a `.modal` and only
      `.modal` elements are ever active. */
  predicate WellFormed(es: seq<ModalElement>) {
    forall j :: 0 <= j < |es| ==> (es[j].popup != "" ==> es[j].isModal) && (es[j].active ==> es[j].isModal)
  }

  /** No two dialogs share a `data-popup` value. */
  predicate UniquePopups(es: seq<ModalElement>) {
    forall i, j :: 0 <= i < |es| && 0 <= j < |es| && es[i].popup != "" && es[i].popup == es[j].popup ==> i == j
  }

  /** The element list after `openModal(id)`: when a dialog matches, every
      `.modal` is deactivated and then the matching one is activated. */
  function Opened(es: seq<ModalElement>, id: string): (r: seq<ModalElement>)
    ensures |r| == |es|
    ensures forall j :: 0 <= j < |r| ==> r[j].popup == es[j].popup && r[j].isModal == es[j].isModal
    ensures id == "" || FindModal(es, id).None? ==> r == es
    ensures id != "" && FindModal(es, id).Some? ==>
              && r[FindModal(es, id).value].active
              && forall j :: 0 <= j < |r| && j != FindModal(es, id).value ==> r[j].active == (es[j].active && !es[j].isModal)
  {
    if id == "" then es
    else match FindModal(es, id)
      case None => es
      case Some(k) => Deactivated(es)[k := es[k].(active := true)]
  }

  /** The loop `document.querySelectorAll('.modal').forEach(m => m.classList.remove('modal--active'))`. */
  function Deactivated(es: seq<ModalElement>): (r: seq<ModalElement>)
    ensures |r| == |es|
    ensures forall j :: 0 <= j < |r| ==> r[j] == es[j].(active := es[j].active && !es[j].isModal)
  {
    seq(|es|, j requires 0 <= j < |es| => es[j].(active := es[j].active && !es[j].isModal))
  }

  /** The element `closeModal(id)` selects: the first dialog with that id,
      or, when no id is given, the first active element. */
  function CloseTarget(es: seq<ModalElement>, id: string): (r: Option<nat>)
    ensures r.Some? ==> r.value < |es| && (if id != "" then es[r.value].popup == id else es[r.value].active)
    ensures r.Some? ==> forall j :: 0 <= j < r.value ==> if id != "" then es[j].popup != id else !es[j].active
    ensures id != "" ==> (r.None? <==> forall j :: 0 <= j < |es| ==> es[j].popup != id)
    ensures id == "" ==> (r.None? <==> NoneActive(es))
  {
    if id != "" then FindModal(es, id) else FindActive(es)
  }

  /** The element list after `closeModal(id)`: only the selected element loses `modal--active`. */
  function Closed(es: seq<ModalElement>, id: string): (r: seq<ModalElement>)
    ensures |r| == |es|
    ensures CloseTarget(es, id).None? ==> r == es
    ensures CloseTarget(es, id).Some? ==>
              && !r[CloseTarget(es, id).value].active
              && forall j :: 0 <= j < |r| ==>
                   r[j].popup == es[j].popup && r[j].isModal == es[j].isModal &&
                   (j != CloseTarget(es, id).value ==> r[j] == es[j])
  {
    match CloseTarget(es, id)
    case None => es
    case Some(k) => es[k := es[k].(active := false)]
  }

  /** The id the Escape handler passes to `closeModal`: the `data-popup` of
      the first active element, when there is one. */
  function EscapeId(es: seq<ModalElement>): (r: Option<string>)
    ensures r.None? <==> NoneActive(es)
    ensures r.Some? ==> exists k :: 0 <= k < |es| && es[k].active && es[k].popup == r.value
                          && forall j :: 0 <= j < k ==> !es[j].active
  {
    match FindActive(es)
    case None => None
    case Some(k) => Some(es[k].popup)
  }

  /** On well-formed markup, opening a dialog leaves exactly that dialog
      active, whatever was active before. */
  lemma OpenedActivatesOnlyTarget(es: seq<ModalElement>, id: string)
    requires WellFormed(es)
    requires id != "" && FindModal(es, id).Some?
    ensures WellFormed(Opened(es, id))
    ensures forall j :: 0 <= j < |es| ==> (Opened(es, id)[j].active <==> j == FindModal(es, id).value)
    ensures AtMostOneActive(Opened(es, id))
  {
  }

  /** Both the "at most one open dialog" invariant and well-formedness are
      preserved by `closeModal`. */
  lemma ClosedKeepsInvariant(es: seq<ModalElement>, id: string)
    requires WellFormed(es) && AtMostOneActive(es)
    ensures WellFormed(Closed(es, id)) && AtMostOneActive(Closed(es, id))
  {
  }

  /** Opening a dialog twice is the same as opening it once. */
  lemma OpenedIdempotent(es: seq<ModalElement>, id: string)
    ensures Opened(Opened(es, id), id) == Opened(es, id)
  {
  }

  /** Opening a dialog and then closing it by the same id leaves no dialog open. */
  lemma OpenThenCloseLeavesNoneActive(es: seq<ModalElement>, id: string)
    requires WellFormed(es)
    requires id != "" && FindModal(es, id).Some?
    ensures NoneActive(Closed(Opened(es, id), id))
  {
  }

  /** With at most one dialog open and distinct ids, Escape closes the open
      dialog, and then no dialog is open. */
  lemma EscapeClosesActive(es: seq<ModalElement>)
    requires AtMostOneActive(es) && UniquePopups(es)
    requires FindActive(es).Some?
    ensures EscapeId(es).Some?
    ensures CloseTarget(es, EscapeId(es).value) == FindActive(es)
    ensures NoneActive(Closed(es, EscapeId(es).value))
  {
  }

  /** The page's dialogs and the scroll lock. */
  class ModalRegistry {
    const elements: array<ModalElement>
    var scrollLocked: bool

    constructor (es: seq<ModalElement>, scrollLocked: bool)
      ensures fresh(elements) && elements[..] == es && this.scrollLocked == scrollLocked
    {
      elements := new ModalElement[|es|](i requires 0 <= i < |es| => es[i]);
      this.scrollLocked := scrollLocked;
    }

    /** `openModal(id)`: an empty id or an id no dialog carries changes
        nothing; otherwise the dialog is opened and the page scroll locked. */
    method OpenModal(id: string)
      modifies this`scrollLocked, elements
      ensures elements[..] == Opened(old(elements[..]), id)
      ensures scrollLocked == (if id != "" && FindModal(old(elements[..]), id).Some? then true else old(scrollLocked))
    {
      if id == "" {
        return;
      }
      var target := FindModal(elements[..], id);
      if target.Some? {
        ghost var es := elements[..];
        var i := 0;
        while i < elements.Length
          invariant 0 <= i <= elements.Length
          invariant forall j :: 0 <= j < i ==> elements[j] == es[j].(active := es[j].active && !es[j].isModal)
          invariant forall j :: i <= j < elements.Length ==> elements[j] == es[j]
        {
          if elements[i].isModal {
            elements[i] := elements[i].(active := false);
          }
          i := i + 1;
        }
        assert elements[..] == Deactivated(es);
        elements[target.value] := elements[target.value].(active := true);
        scrollLocked := true;
      }
    }

    /** `closeModal(id)`: deactivate the selected element and release the
        scroll lock; when nothing is selected, nothing changes. */
    method CloseModal(id: string)
      modifies this`scrollLocked, elements
      ensures elements[..] == Closed(old(elements[..]), id)
      ensures scrollLocked == (if CloseTarget(old(elements[..]), id).Some? then false else old(scrollLocked))
    {
      var target;
      if id != "" {
        target := FindModal(elements[..], id);
      } else {
        target := FindActive(elements[..]);
      }
      if target.Some? {
        elements[target.value] := elements[target.value].(active := false);
        scrollLocked := false;
      }
    }

    /** The Escape key handler: close the first active element, looked up
        again through its `data-popup` value. */
    method OnEscape()
      modifies this`scrollLocked, elements
      ensures EscapeId(old(elements[..])).None? ==>
                elements[..] == old(elements[..]) && scrollLocked == old(scrollLocked)
      ensures EscapeId(old(elements[..])).Some? ==>
                && elements[..] == Closed(old(elements[..]), EscapeId(old(elements[..])).value)
                && scrollLocked == (if CloseTarget(old(elements[..]), EscapeId(old(elements[..])).value).Some? then false else old(scrollLocked))
    {
      var active := FindActive(elements[..]);
      if active.Some? {
        CloseModal(elements[active.value].popup);
      }
    }
  }
}
