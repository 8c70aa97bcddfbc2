/**
 The few DOM operations the page script relies on, modelled on values:
 an element's class list is a `set<string>`, a missing attribute is the
 empty string, and `querySelector` over a list of elements in document
 order is the first element that satisfies the selector.
 */
module Dom {

  datatype Option<T> = None | Some(value: T)

  /** `querySelector`: the index of the first element (in document order)
      for which `p` holds, or None when no element matches. */
  function FirstWhere<T>(s: seq<T>, p: T -> bool): (r: Option<nat>)
    ensures r.Some? ==> r.value < |s| && p(s[r.value])
    ensures r.Some? ==> forall j :: 0 <= j < r.value ==> !p(s[j])
    ensures r.None? <==> forall j :: 0 <= j < |s| ==> !p(s[j])
  {
    if |s| == 0 then None
    else if p(s[0]) then Some(0)
    else match FirstWhere(s[1..], p)
      case None => None
      case Some(k) => Some(k + 1)
  }

  /** The first match depends only on which elements satisfy the selector:
      two lists of the same length that agree on `p` element by element
      give the same answer. */
  lemma FirstWhereAgrees<T, U>(s: seq<T>, p: T -> bool, t: seq<U>, q: U -> bool)
    requires |s| == |t|
    requires forall j :: 0 <= j < |s| ==> p(s[j]) == q(t[j])
    ensures FirstWhere(s, p) == FirstWhere(t, q)
  {
  }

  /** `classList.toggle(c, force)`, which is also `add(c)` when `force` holds
      and `remove(c)` when it does not: afterwards `c` is present exactly when
      `force` holds, and every other class is left as it was. */
  function Toggle(classes: set<string>, c: string, force: bool): (r: set<string>)
    ensures c in r <==> force
    ensures r - {c} == classes - {c}
  {
    if force then classes + {c} else classes - {c}
  }

  /** Re-applying the same toggle changes nothing more. */
  lemma ToggleIdempotent(classes: set<string>, c: string, force: bool)
    ensures Toggle(Toggle(classes, c, force), c, force) == Toggle(classes, c, force)
  {
  }
}
