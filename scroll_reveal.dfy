/**
 Scroll-triggered reveal (the IntersectionObserver callback of
 `ScrollAnimations` in dist/js/main.js).

 Each watched element has a class list, its `data-scroll-animation` value
 ("" when absent) and whether the observer still observes it. The browser
 hands the callback a batch of entries, each naming a watched element and
 whether it now intersects.
 */
module ScrollReveal {

  const DefaultAnimationClass := "scroll-animation--visible"

  datatype Watched = Watched(classes: set<string>, animationAttr: string, observed: bool)
  datatype Entry = Entry(target: nat, isIntersecting: bool)

  /** `element.dataset.scrollAnimation || 'scroll-animation--visible'`. */
  function AnimationClass(attr: string): (c: string)
    ensures c != ""
    ensures attr != "" ==> c == attr
    ensures attr == "" ==> c == DefaultAnimationClass
  {
    if attr == "" then DefaultAnimationClass else attr
  }

  /** What one entry does to its element: on intersection the class is
      added (and a `once` observer stops observing the element); otherwise
      a toggling observer removes the class and a `once` observer does
      nothing. */
  function ApplyEntry(w: Watched, isIntersecting: bool, once: bool): (r: Watched)
    ensures r.animationAttr == w.animationAttr
    ensures r.classes - {AnimationClass(w.animationAttr)} == w.classes - {AnimationClass(w.animationAttr)}
    ensures isIntersecting ==> AnimationClass(w.animationAttr) in r.classes
    ensures !isIntersecting && !once ==> AnimationClass(w.animationAttr) !in r.classes
    ensures !isIntersecting && once ==> r == w
    ensures r.observed == (w.observed && !(isIntersecting && once))
  {
    var c := AnimationClass(w.animationAttr);
    if isIntersecting then
      w.(classes := w.classes + {c}, observed := w.observed && !once)
    else if !once then
      w.(classes := w.classes - {c})
    else
      w
  }

  predicate Targets(entries: seq<Entry>, n: nat) {
    forall k :: 0 <= k < |entries| ==> entries[k].target < n
  }

  /** The element list after the callback has handled `entries` in order. */
  function Reveal(es: seq<Watched>, entries: seq<Entry>, once: bool): (r: seq<Watched>)
    requires Targets(entries, |es|)
    ensures |r| == |es|
    decreases |entries|
  {
    if entries == [] then es
    else
      var e := entries[0];
      Reveal(es[e.target := ApplyEntry(es[e.target], e.isIntersecting, once)], entries[1..], once)
  }

  /** With `once`, a revealed element stays revealed: the callback never
      removes a class, nor starts observing an element again. */
  lemma {:induction false} OnceOnlyAdds(es: seq<Watched>, entries: seq<Entry>, j: nat)
    requires Targets(entries, |es|) && j < |es|
    ensures es[j].classes <= Reveal(es, entries, true)[j].classes
    ensures Reveal(es, entries, true)[j].observed ==> es[j].observed
    decreases |entries|
  {
    if entries != [] {
      var e := entries[0];
      var es' := es[e.target := ApplyEntry(es[e.target], e.isIntersecting, true)];
      OnceOnlyAdds(es', entries[1..], j);
    }
  }

  /** With `once`, every element that some entry reports as intersecting
      ends the batch with its class and no longer observed. */
  lemma {:induction false} OnceRevealsIntersecting(es: seq<Watched>, entries: seq<Entry>, k: nat)
    requires Targets(entries, |es|) && k < |entries| && entries[k].isIntersecting
    ensures AnimationClass(es[entries[k].target].animationAttr) in Reveal(es, entries, true)[entries[k].target].classes
    ensures !Reveal(es, entries, true)[entries[k].target].observed
    decreases |entries|
  {
    var e := entries[0];
    var es' := es[e.target := ApplyEntry(es[e.target], e.isIntersecting, true)];
    assert es'[entries[k].target].animationAttr == es[entries[k].target].animationAttr;
    if k == 0 {
      OnceOnlyAdds(es', entries[1..], e.target);
    } else {
      assert entries[1..][k - 1] == entries[k];
      OnceRevealsIntersecting(es', entries[1..], k - 1);
    }
  }

  /** Only the animation class and the observed flag of an element can
      change, and an element no entry names does not change at all. */
  lemma {:induction false} RevealFrame(es: seq<Watched>, entries: seq<Entry>, once: bool, j: nat)
    requires Targets(entries, |es|) && j < |es|
    ensures Reveal(es, entries, once)[j].animationAttr == es[j].animationAttr
    ensures Reveal(es, entries, once)[j].classes - {AnimationClass(es[j].animationAttr)}
            == es[j].classes - {AnimationClass(es[j].animationAttr)}
    ensures (forall k :: 0 <= k < |entries| ==> entries[k].target != j) ==> Reveal(es, entries, once)[j] == es[j]
    decreases |entries|
  {
    if entries != [] {
      var e := entries[0];
      var es' := es[e.target := ApplyEntry(es[e.target], e.isIntersecting, once)];
      RevealFrame(es', entries[1..], once, j);
      if forall k :: 0 <= k < |entries| ==> entries[k].target != j {
        assert forall k :: 0 <= k < |entries| - 1 ==> entries[1..][k] == entries[k + 1];
      }
    }
  }

  /** Without `once`, after the batch an element shows its class exactly
      when the last entry that names it reports an intersection. */
  lemma {:induction false} ToggleFollowsLastEntry(es: seq<Watched>, entries: seq<Entry>, k: nat)
    requires Targets(entries, |es|) && k < |entries|
    requires forall m :: k < m < |entries| ==> entries[m].target != entries[k].target
    ensures AnimationClass(es[entries[k].target].animationAttr) in Reveal(es, entries, false)[entries[k].target].classes
            <==> entries[k].isIntersecting
    decreases |entries|
  {
    var e := entries[0];
    var es' := es[e.target := ApplyEntry(es[e.target], e.isIntersecting, false)];
    var rest := entries[1..];
    assert es'[entries[k].target].animationAttr == es[entries[k].target].animationAttr;
    assert forall m :: 0 <= m < |rest| ==> rest[m] == entries[m + 1];
    if k == 0 {
      assert forall m :: 0 <= m < |rest| ==> rest[m].target != e.target;
      RevealFrame(es', rest, false, e.target);
      assert Reveal(es, entries, false) == Reveal(es', rest, false);
      assert Reveal(es', rest, false)[e.target] == es'[e.target];
      var c := AnimationClass(es[e.target].animationAttr);
      assert c in es'[e.target].classes <==> e.isIntersecting;
    } else {
      ToggleFollowsLastEntry(es', rest, k - 1);
    }
  }

  /** The observer shared by the elements registered through `observe`. */
  class ScrollAnimations {
    /** The truthiness of `options.once` when the caller gives it; true when absent. */
    const once: bool
    const elements: array<Watched>

    constructor (es: seq<Watched>, once: bool)
      ensures fresh(elements) && elements[..] == es && this.once == once
    {
      elements := new Watched[|es|](i requires 0 <= i < |es| => es[i]);
      this.once := once;
    }

    /** The callback body: handle the entries of one batch in order. */
    method OnIntersection(entries: seq<Entry>)
      requires Targets(entries, elements.Length)
      modifies elements
      ensures elements[..] == Reveal(old(elements[..]), entries, once)
    {
      var i := 0;
      while i < |entries|
        invariant 0 <= i <= |entries|
        invariant Targets(entries[i..], elements.Length)
        invariant Reveal(elements[..], entries[i..], once) == Reveal(old(elements[..]), entries, once)
      {
        var e := entries[i];
        ghost var before := elements[..];
        var c := AnimationClass(elements[e.target].animationAttr);
        if e.isIntersecting {
          elements[e.target] := elements[e.target].(classes := elements[e.target].classes + {c});
          if once {
            elements[e.target] := elements[e.target].(observed := false);
          }
        } else if !once {
          elements[e.target] := elements[e.target].(classes := elements[e.target].classes - {c});
        }
        assert elements[..] == before[e.target := ApplyEntry(before[e.target], e.isIntersecting, once)];
        assert entries[i..][0] == e && entries[i..][1..] == entries[i + 1..];
        i := i + 1;
      }
      assert entries[i..] == [];
    }
  }
}
